/**
 * The date/place line under a photo in the lightbox (main.js:36-37).
 * The photo's `date` and `place` are optional strings, and the script tests
 * them for JavaScript truthiness, so a missing value and `""` both count as
 * absent.
 */
module Caption {
  import opened Wrappers

  /** JavaScript truthiness of an optional string: only a string with at least one character is truthy. */
  predicate Present(v: Option<string>): (truthy: bool)
    ensures truthy <==> v.Some? && |v.value| > 0
  {
    v.Some? && v.value != ""
  }

  /**
   * What goes between the date and the place, as the script's text holds it:
   * the characters U+00E2 U+20AC U+00A2 (a UTF-8 bullet read as
   * Windows-1252) with a space on each side.
   */
  const Separator: string := " \U{E2}\U{20AC}\U{A2} "

  /**
   * `let metaText = photo.date ? photo.date : '';` followed by
   * `if (photo.place) metaText += (metaText ? separator : '') + photo.place;`
   */
  function MetaText(date: Option<string>, place: Option<string>): (text: string)
    ensures Present(date) && !Present(place) ==> text == date.value
    ensures !Present(date) && Present(place) ==> text == place.value
    ensures Present(date) && Present(place) ==> text == date.value + Separator + place.value
    ensures text == "" <==> !Present(date) && !Present(place)
  {
    var metaText := if Present(date) then date.value else "";
    if Present(place) then metaText + (if metaText != "" then Separator else "") + place.value
    else metaText
  }
}
