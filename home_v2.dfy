/** home-v2.js: the manually driven business-impact carousel (module Carousel, with the constants below). */
module HomeV2 {
  import Carousel

  /** `initBizImpactCarousel`: 411px cards and a 32px gap by default, no autoplay, optional bar. */
  const CarouselConfig := Carousel.Config(411, 32, false, false)

  /** With no card in the track the metrics are the defaults: three 411px cards, 32px apart. */
  lemma EmptyTrackMetrics(layout: Carousel.Layout)
    ensures Carousel.CardMetrics(0, layout, CarouselConfig) == Carousel.Metrics(411, 32, 3)
  {
  }
}
