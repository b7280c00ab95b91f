/** The handful of colours the pages assign, by name, and the app theme that
    chooses between them. A colour may be drawn at half opacity, which is
    what `WithAlpha(0.5f)` does to a fully opaque one. */
module Colours {

  datatype Theme = Light | Dark

  datatype Ink =
    | Black
    | White
    | SlateGrey   // #49454F
    | MistGrey    // #CAC4D0
    | DeepRed     // #B3261E
    | Blush       // #F2B8B5

  datatype Colour = Colour(ink: Ink, halfAlpha: bool)

  function Opaque(ink: Ink): Colour {
    Colour(ink, false)
  }

  /** `WithAlpha(0.5f)` of a fully opaque colour. */
  function Dimmed(ink: Ink): Colour {
    Colour(ink, true)
  }

  /** Primary text: black on the light theme, white on the dark one. */
  function PrimaryInk(theme: Theme): Ink {
    if theme == Light then Black else White
  }

  /** Secondary text: #49454F on the light theme, #CAC4D0 on the dark one. */
  function SecondaryInk(theme: Theme): Ink {
    if theme == Light then SlateGrey else MistGrey
  }

  /** The highlight for something due today: #B3261E light, #F2B8B5 dark. */
  function DueTodayInk(theme: Theme): Ink {
    if theme == Light then DeepRed else Blush
  }
}
