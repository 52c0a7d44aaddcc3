/** impact.js: the autoplaying companies carousel (module Carousel, with the constants below). */
module Impact {
  import Carousel

  /** `initCompaniesCarousel`: 360px cards and a 24px gap by default, autoplay, progress bar required. */
  const CarouselConfig := Carousel.Config(360, 24, true, true)

  /** With no card in the track the metrics are the defaults: three 360px cards, 24px apart. */
  lemma EmptyTrackMetrics(layout: Carousel.Layout)
    ensures Carousel.CardMetrics(0, layout, CarouselConfig) == Carousel.Metrics(360, 24, 3)
  {
  }
}
