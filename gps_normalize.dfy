/**
 * What `get_gps_coordinates` does with the exiftool fields once they are
 * decoded. Each script has its own policy: main.py parses text and negates
 * the longitude, corrds2.py signs the longitude by its hemisphere reference,
 * get_coords.py passes both values through.
 */
module GpsNormalize {
  import opened Wrappers
  import opened DmsCodec
  import opened AsciiCase

  /** A decoded JSON field: a number, or a text such as `15 deg 25' 4.30" W`. */
  datatype ExifValue = Number(n: real) | Text(t: string)

  /** A signed decimal coordinate pair, positive to the north and east. */
  datatype GeoPoint = GeoPoint(lat: real, lon: real)

  /** The `(lat, lon)` tuple corrds2.py and get_coords.py return, fields as received. */
  datatype RawPair = RawPair(lat: ExifValue, lon: ExifValue)

  /** main.py: a text field goes through `dms_to_decimal`, a number is kept. */
  function ToDegrees(v: ExifValue): (r: Result<real, DmsError>)
    ensures v.Number? ==> r == Success(v.n)
    ensures v.Text? ==> r == DmsToDecimal(v.t)
  {
    match v
    case Number(n) => Success(n)
    case Text(t) => DmsToDecimal(t)
  }

  /**
   * main.py: no point when a field is missing; otherwise both are converted
   * (latitude first, so its `ValueError` wins) and the longitude is negated.
   */
  function ExtractNegatingLongitude(lat: Option<ExifValue>, lon: Option<ExifValue>)
    : (r: Result<Option<GeoPoint>, DmsError>)
    ensures (lat.None? || lon.None?) ==> r == Success(None)
    ensures lat.Some? && lon.Some? && ToDegrees(lat.value).Failure? ==> r == Failure(ToDegrees(lat.value).error)
    ensures lat.Some? && lon.Some? && ToDegrees(lat.value).Success? && ToDegrees(lon.value).Failure?
            ==> r == Failure(ToDegrees(lon.value).error)
    ensures r.Success? && r.value.Some? ==>
            lat.Some? && lon.Some?
            && r.value.value.lat == ToDegrees(lat.value).value
            && r.value.value.lon + ToDegrees(lon.value).value == 0.0
    ensures lat.Some? && lon.Some? && ToDegrees(lat.value).Success? && ToDegrees(lon.value).Success?
            ==> r == Success(Some(GeoPoint(ToDegrees(lat.value).value, -ToDegrees(lon.value).value)))
  {
    if lat.None? || lon.None? then Success(None)
    else
      match ToDegrees(lat.value)
      case Failure(e) => Failure(e)
      case Success(la) =>
        match ToDegrees(lon.value)
        case Failure(e) => Failure(e)
        case Success(lo) => Success(Some(GeoPoint(la, -lo)))
  }

  /**
   * The longitude rule of main.py is a plain negation, not `-abs`: a number
   * that is already negative comes out positive, and the latitude is kept.
   */
  lemma NegationFlipsEitherSign(la: real, lo: real)
    ensures var r := ExtractNegatingLongitude(Some(Number(la)), Some(Number(lo)));
            r.Success? && r.value.Some? && r.value.value.lat == la
            && (lo < 0.0 ==> r.value.value.lon > 0.0) && (lo > 0.0 ==> r.value.value.lon < 0.0)
  {
  }

  /** `lon_ref.upper() == letter`, for a reference that is present. */
  predicate RefIs(ref: Option<string>, letter: string) {
    ref.Some? && Upper(ref.value) == letter
  }

  /**
   * corrds2.py: `W` (any case) forces `-abs(lon)`, `E` forces `abs(lon)`;
   * an unknown reference and a missing or empty one both assume `W`.
   */
  function SignByReference(lon: real, ref: Option<string>): (r: real)
    ensures Abs(r) == Abs(lon)
    ensures RefIs(ref, "E") ==> r == Abs(lon)
    ensures !RefIs(ref, "E") ==> r == -Abs(lon)
    ensures r > 0.0 ==> RefIs(ref, "E")
  {
    if ref.Some? && ref.value != "" then
      if Upper(ref.value) == "W" then -Abs(lon)
      else if Upper(ref.value) == "E" then Abs(lon)
      else -Abs(lon)
    else -Abs(lon)
  }

  /** The references that spell `W` or `E` in either case are exactly the one-letter ones. */
  lemma ReferenceLetters(ref: string)
    ensures Upper(ref) == "W" <==> ref == "W" || ref == "w"
    ensures Upper(ref) == "E" <==> ref == "E" || ref == "e"
  {
    if |ref| == 1 {
      assert Upper(ref)[0] == UpperChar(ref[0]);
      if Upper(ref) == "W" || Upper(ref) == "E" {
        assert ref == [ref[0]];
      }
    }
  }

  /** Signing twice with the same reference changes nothing further. */
  lemma SignByReferenceIdempotent(lon: real, ref: Option<string>)
    ensures SignByReference(SignByReference(lon, ref), ref) == SignByReference(lon, ref)
  {
  }

  /**
   * corrds2.py:47-75. No pair when a field is missing; `abs` of a text
   * longitude raises a `TypeError` that the surrounding `except Exception`
   * turns into `None`; the latitude is returned as received.
   */
  function ExtractByReference(lat: Option<ExifValue>, lon: Option<ExifValue>, ref: Option<string>)
    : (r: Option<RawPair>)
    ensures r.Some? <==> lat.Some? && lon.Some? && lon.value.Number?
    ensures r.Some? ==> r.value.lat == lat.value
    ensures r.Some? ==> r.value.lon.Number? && Abs(r.value.lon.n) == Abs(lon.value.n)
    ensures r.Some? && r.value.lon.n > 0.0 ==> RefIs(ref, "E")
    ensures r.Some? && RefIs(ref, "W") ==> r.value.lon.n <= 0.0
    ensures r.Some? && RefIs(ref, "E") ==> r.value.lon.n == Abs(lon.value.n)
    ensures r.Some? ==> r.value.lon == Number(SignByReference(lon.value.n, ref))
  {
    if lat.None? || lon.None? then None
    else
      match lon.value
      case Text(_) => None
      case Number(n) => Some(RawPair(lat.value, Number(SignByReference(n, ref))))
  }

  /** get_coords.py: both fields present are returned untouched, no sign correction. */
  function ExtractAsGiven(lat: Option<ExifValue>, lon: Option<ExifValue>): (r: Option<RawPair>)
    ensures r.Some? <==> lat.Some? && lon.Some?
    ensures r.Some? ==> r.value.lat == lat.value && r.value.lon == lon.value
  {
    if lat.None? || lon.None? then None else Some(RawPair(lat.value, lon.value))
  }

  /** 15.42 with reference `W`, `e` and none. */
  lemma ReferenceExamples()
    ensures ExtractByReference(Some(Number(27.99)), Some(Number(15.42)), Some("W"))
            == Some(RawPair(Number(27.99), Number(-15.42)))
    ensures ExtractByReference(Some(Number(27.99)), Some(Number(15.42)), Some("e"))
            == Some(RawPair(Number(27.99), Number(15.42)))
    ensures ExtractByReference(Some(Number(27.99)), Some(Number(15.42)), None)
            == Some(RawPair(Number(27.99), Number(-15.42)))
  {
    ReferenceLetters("W");
    ReferenceLetters("e");
  }
}
