/**
 * NullTime: a time.Time that the driver reads from and writes to a column
 * that may hold NULL. The zero instant stands for NULL in both directions.
 */
module NullTimes {
  import opened Wrappers
  import opened Errors
  import opened Instants
  import opened Rfc3339
  import opened Calendar

  /** The values database/sql hands to Scan and accepts from Value (driver.Value). */
  datatype DriverValue =
    | Nil
    | Int64(i: int)
    | Float64(bits: bv64)
    | Bool(b: bool)
    | Bytes(data: seq<bv8>)
    | Str(s: string)
    | Time(t: Instant)

  /** The name the verb %T prints for the dynamic type of a non-nil value. */
  function GoTypeName(v: DriverValue): (r: string)
    requires !v.Nil?
    ensures r == "int64" <==> v.Int64?
    ensures r == "float64" <==> v.Float64?
    ensures r == "bool" <==> v.Bool?
    ensures r == "[]uint8" <==> v.Bytes?
    ensures r == "string" <==> v.Str?
    ensures r == "time.Time" <==> v.Time?
  {
    match v
    case Int64(_) => "int64"
    case Float64(_) => "float64"
    case Bool(_) => "bool"
    case Bytes(_) => "[]uint8"
    case Str(_) => "string"
    case Time(_) => "time.Time"
  }

  /** What Scan does with a value: store an instant, or reject the value's type. */
  datatype ScanOutcome = Stored(t: Instant) | Rejected(goType: string)

  /**
   * The decision in NullTime.Scan: nil stores the zero instant; a string
   * stores what it parses to, and the zero instant when it does not parse
   * (the parse error is dropped); any other type is rejected.
   */
  function Decode(v: DriverValue): (r: ScanOutcome)
    ensures r.Rejected? <==> !(v.Nil? || v.Str?)
    ensures v.Nil? ==> r == Stored(ZeroInstant)
    ensures v.Str? && Parse(v.s).None? ==> r == Stored(ZeroInstant)
    ensures v.Str? && Parse(v.s).Some? ==> r == Stored(Parse(v.s).value)
    ensures r.Stored? ==> r.t % NanosPerSecond == 0
    ensures r.Rejected? ==> r.goType == GoTypeName(v)
  {
    if v.Nil? then Stored(ZeroInstant)
    else if v.Str? then
      var parsed := Parse(v.s);
      Stored(if parsed.Some? then parsed.value else ZeroInstant)
    else Rejected(GoTypeName(v))
  }

  /**
   * The decision in NullTime.Value for a non-nil receiver: the zero instant
   * is NULL, any other instant its RFC 3339 text in UTC.
   */
  function Encode(t: Instant): (v: DriverValue)
    ensures v.Nil? <==> IsZero(t)
    ensures v.Nil? || v.Str?
    ensures v.Str? ==> v.s == Format(t)
  {
    if IsZero(t) then Nil else Str(Format(t))
  }

  /** A NullTime variable; Scan writes through the pointer to it. */
  class NullTime {
    var time: Instant

    /** NullTime(t); `var nt NullTime` is NullTime(ZeroInstant). */
    constructor (t: Instant)
      ensures time == t
    {
      time := t;
    }

    method Scan(value: DriverValue) returns (err: Option<Error>)
      modifies this
      ensures Decode(value).Stored? ==> time == Decode(value).t && err == None
      ensures Decode(value).Rejected? ==> time == old(time) && err == Some(CannotScan(Decode(value).goType))
    {
      var outcome := Decode(value);
      if outcome.Stored? {
        time := outcome.t;
        return None;
      }
      return Some(CannotScan(outcome.goType));
    }
  }

  /** (*NullTime).Value, where the receiver may be a nil pointer; its error is always nil. */
  function Value(n: NullTime?): (v: DriverValue)
    reads n
    ensures n == null ==> v == Nil
    ensures n != null ==> v == Encode(n.time)
  {
    if n == null then Nil else Encode(n.time)
  }

  /**
   * Value then Scan gives back the instant truncated to the second for
   * every instant before year 10000 (NULL included: zero goes to Nil and back).
   */
  lemma EncodeThenDecode(t: Instant)
    requires t < MaxInstant
    ensures Decode(Encode(t)) == Stored(Truncate(t))
  {
    if !IsZero(t) {
      FormatThenParse(t);
    }
  }

  /** A whole-second instant before year 10000 survives the round trip unchanged. */
  lemma WholeSecondRoundTrip(t: Instant)
    requires t < MaxInstant && t % NanosPerSecond == 0
    ensures Decode(Encode(t)) == Stored(t)
  {
    EncodeThenDecode(t);
  }

  /**
   * Scan then Value: a canonical text that names an instant other than the
   * zero one is written back exactly as it was read.
   */
  lemma DecodeThenEncode(s: string)
    requires Decode(Str(s)).Stored? && !IsZero(Decode(Str(s)).t)
    ensures Encode(Decode(Str(s)).t) == Str(s)
  {
    ParseThenFormat(s);
  }

  /**
   * From year 10000 on, Value writes a five-digit year that Scan cannot
   * parse, and the instant silently comes back as the zero one (NULL).
   */
  lemma FarFutureReadsAsNull(t: Instant)
    requires t >= MaxInstant
    ensures Decode(Encode(t)) == Stored(ZeroInstant)
  {
    FormatBeyondYear9999(t);
  }

  /** The instant the source's own tests use: 2025-01-15T12:00:00Z. */
  lemma ScanValueExample()
    ensures Decode(Str("2025-01-15T12:00:00Z")) == Stored(InstantOf(Fields(2025, 1, 15, 12, 0, 0)))
    ensures Encode(InstantOf(Fields(2025, 1, 15, 12, 0, 0))) == Str("2025-01-15T12:00:00Z")
  {
    var s := "2025-01-15T12:00:00Z";
    ExampleFields();
    assert InRange(Fields(2025, 1, 15, 12, 0, 0));
    assert Parse(s) == Some(InstantOf(Fields(2025, 1, 15, 12, 0, 0)));
    ParseThenFormat(s);
  }

  lemma ExampleFields()
    ensures Layout("2025-01-15T12:00:00Z")
    ensures FieldsIn("2025-01-15T12:00:00Z") == Fields(2025, 1, 15, 12, 0, 0)
  {
  }
}
