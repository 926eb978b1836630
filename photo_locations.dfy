/**
 * The loop in main2.py's `main` that gives every photo location its
 * palette colour, overwriting `photo_locations[idx]` in place.
 */
module PhotoLocations {
  import opened Wrappers
  import opened Palette

  /** A `(lat, long, label)` row, and after colouring `(lat, long, label, color)`. */
  datatype PhotoLocation = PhotoLocation(lat: real, lon: real, labelText: string, color: Option<string>)

  const Black: string := "#000000"

  /** `colors_generated[idx] if idx < len(colors_generated) else '#000000'`. */
  function ColorAt(colors: seq<string>, i: nat): (c: string)
    ensures i < |colors| ==> c == colors[i]
    ensures i >= |colors| ==> c == Black
  {
    if i < |colors| then colors[i] else Black
  }

  /**
   * main2.py:185-188: entry `i` keeps its position and label and receives
   * colour `i`. The rows are uncoloured `(lat, long, label)` triples, which
   * is all the unpacking `lat, long, label = location` accepts.
   */
  method AssignColors(locations: array<PhotoLocation>, colors: seq<string>)
    requires forall i :: 0 <= i < locations.Length ==> locations[i].color.None?
    modifies locations
    ensures forall i :: 0 <= i < locations.Length ==>
              locations[i] == old(locations[i]).(color := Some(ColorAt(colors, i)))
  {
    var idx := 0;
    while idx < locations.Length
      invariant 0 <= idx <= locations.Length
      invariant forall i :: 0 <= i < idx ==>
                  locations[i] == old(locations[i]).(color := Some(ColorAt(colors, i)))
      invariant forall i :: idx <= i < locations.Length ==> locations[i] == old(locations[i])
    {
      var location := locations[idx];
      locations[idx] := PhotoLocation(location.lat, location.lon, location.labelText, Some(ColorAt(colors, idx)));
      idx := idx + 1;
    }
  }

  /**
   * main2.py:182-188: one palette colour per location, generated for exactly
   * as many locations as there are, so the black fallback is never taken.
   */
  method ColorLocations(locations: array<PhotoLocation>, hls: HlsToRgb)
    requires forall i :: 0 <= i < locations.Length ==> locations[i].color.None?
    modifies locations
    ensures forall i :: 0 <= i < locations.Length ==>
              locations[i].lat == old(locations[i].lat) && locations[i].lon == old(locations[i].lon)
              && locations[i].labelText == old(locations[i].labelText)
    ensures forall i :: 0 <= i < locations.Length ==>
              locations[i].color.Some? && IsHexColor(locations[i].color.value)
              && DecodeHexColor(locations[i].color.value)
                 == Some(Bytes(hls(Hue(i, locations.Length), DefaultLightness, DefaultSaturation)))
  {
    var colorsGenerated := GenerateUniqueColors(locations.Length, DefaultSaturation, DefaultLightness, hls);
    AssignColors(locations, colorsGenerated);
  }
}
