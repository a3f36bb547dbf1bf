/**
 * An immutable piece of artwork (src/main/java/vvakar/Art.java).
 *
 * The record is a value: once built it never changes. Its creation time is
 * held as the millisecond count of a `java.util.Date`; the mutable `Date`
 * objects that callers hand in and receive back are modelled by the small
 * class `Date` below.
 */
module ArtRecord {
  import opened Wrappers
  import opened JavaInts

  /**
   * The category of an artwork. `PAINTING` and `TAPESTRY` are the values the
   * tests use; the enum's own declaration is not part of this model, and
   * `SCULPTURE` stands for its further values.
   */
  datatype ArtType = PAINTING | TAPESTRY | SCULPTURE

  /** What makes two records "the same artwork": everything except price and date. */
  datatype Identity = Identity(name: string, artType: ArtType, artist: string)

  /** A record as built by the constructor; `created` is the time in milliseconds. */
  datatype Art = Art(name: string, artType: ArtType, pricePence: Option<int32>, artist: string, created: int64)
  {
    function Id(): (r: Identity)
    {
      Identity(name, artType, artist)
    }
  }

  /** The exception the constructor throws, with its message. */
  datatype ArtError = IllegalArgument(message: string)

  const NAME_NULL: string := "Name cannot be null"
  const TYPE_NULL: string := "Type cannot be null"
  const ARTIST_NULL: string := "Artist cannot be null"
  const CREATED_NULL: string := "Created cannot be null"
  const PRICE_NEGATIVE: string := "Price cannot be negative"

  /** The invariant every constructed record satisfies: a price, when present, is not negative. */
  predicate WellFormed(a: Art)
  {
    a.pricePence.None? || a.pricePence.value >= 0
  }

  /**
   * The constructor's validation and field assignment. `None` stands for a
   * `null` argument; `created` is the time read from the caller's `Date`.
   * The checks run in the order name, type, artist, created, price, and the
   * first one that fails decides the message.
   */
  function NewArt(name: Option<string>, artType: Option<ArtType>, pricePence: Option<int32>,
                  artist: Option<string>, created: Option<int64>): (r: Result<Art, ArtError>)
    ensures r.Success? <==>
              name.Some? && artType.Some? && artist.Some? && created.Some? &&
              (pricePence.None? || pricePence.value >= 0)
    ensures name.None? ==> r == Failure(IllegalArgument(NAME_NULL))
    ensures name.Some? && artType.None? ==> r == Failure(IllegalArgument(TYPE_NULL))
    ensures name.Some? && artType.Some? && artist.None? ==> r == Failure(IllegalArgument(ARTIST_NULL))
    ensures name.Some? && artType.Some? && artist.Some? && created.None? ==>
              r == Failure(IllegalArgument(CREATED_NULL))
    ensures name.Some? && artType.Some? && artist.Some? && created.Some? &&
            pricePence.Some? && pricePence.value < 0 ==>
              r == Failure(IllegalArgument(PRICE_NEGATIVE))
    ensures r.Success? ==>
              && r.value.name == name.value
              && r.value.artType == artType.value
              && r.value.artist == artist.value
              && r.value.created == created.value
              && r.value.pricePence == pricePence
              && WellFormed(r.value)
  {
    if name.None? then Failure(IllegalArgument(NAME_NULL))
    else if artType.None? then Failure(IllegalArgument(TYPE_NULL))
    else if artist.None? then Failure(IllegalArgument(ARTIST_NULL))
    else if created.None? then Failure(IllegalArgument(CREATED_NULL))
    else if pricePence.Some? && pricePence.value < 0 then Failure(IllegalArgument(PRICE_NEGATIVE))
    else Success(Art(name.value, artType.value, pricePence, artist.value, created.value))
  }

  /** Every well-formed record is what the constructor builds from its own fields. */
  lemma NewArtRebuilds(a: Art)
    requires WellFormed(a)
    ensures NewArt(Some(a.name), Some(a.artType), a.pricePence, Some(a.artist), Some(a.created)) == Success(a)
  {
  }

  /** A missing name, type, artist or date is rejected whatever the price. */
  lemma MissingFieldRejected(name: Option<string>, artType: Option<ArtType>, pricePence: Option<int32>,
                             artist: Option<string>, created: Option<int64>)
    requires name.None? || artType.None? || artist.None? || created.None?
    ensures NewArt(name, artType, pricePence, artist, created).Failure?
    ensures NewArt(name, artType, pricePence, artist, created).error.message != PRICE_NEGATIVE
  {
  }

  /** A mutable `java.util.Date`: a millisecond count that its holder may change. */
  class Date {
    var time: int64

    constructor (time: int64)
      ensures this.time == time
    {
      this.time := time;
    }

    method SetTime(time: int64)
      modifies this
      ensures this.time == time
    {
      this.time := time;
    }
  }

  /**
   * The constructor as called from Java: the date is a (possibly null) object,
   * and only its time at the moment of the call is kept.
   */
  method Create(name: Option<string>, artType: Option<ArtType>, pricePence: Option<int32>,
                artist: Option<string>, created: Date?) returns (r: Result<Art, ArtError>)
    ensures r == NewArt(name, artType, pricePence, artist, if created == null then None else Some(created.time))
  {
    if created == null {
      r := NewArt(name, artType, pricePence, artist, None);
    } else {
      var copy := new Date(created.time);
      r := NewArt(name, artType, pricePence, artist, Some(copy.time));
    }
  }

  /** `getCreated`: a new `Date` on every call, holding the stored time. */
  method GetCreated(a: Art) returns (d: Date)
    ensures fresh(d) && d.time == a.created
  {
    d := new Date(a.created);
  }

  /**
   * Two `Date`s returned by `getCreated` are separate objects: changing the
   * first, after both were handed out, leaves the second holding the stored time.
   */
  method ReturnedDateIsACopy(a: Art, time: int64) returns (changed: int64, other: int64)
    ensures changed == time && other == a.created
  {
    var first := GetCreated(a);
    var second := GetCreated(a);
    first.SetTime(time);
    changed := first.time;
    other := second.time;
  }

  /**
   * `equals(Object)`: `None` is `null`. The reference shortcut comes first,
   * then name, type and artist are compared in turn.
   */
  function Equals(a: Art, o: Option<Art>): (r: bool)
    ensures r <==> o.Some? && a.Id() == o.value.Id()
  {
    match o
    case None => false
    case Some(b) =>
      if a == b then true
      else if a.name != b.name then false
      else if a.artType != b.artType then false
      else a.artist == b.artist
  }

  /** Price and date take no part in equality. */
  lemma EqualsIgnoresPriceAndDate(a: Art, pricePence: Option<int32>, created: int64)
    ensures Equals(a, Some(a.(pricePence := pricePence, created := created)))
  {
  }

  /** Equality is reflexive, symmetric and transitive on records. */
  lemma EqualsIsEquivalence(a: Art, b: Art, c: Art)
    ensures Equals(a, Some(a))
    ensures Equals(a, Some(b)) ==> Equals(b, Some(a))
    ensures Equals(a, Some(b)) && Equals(b, Some(c)) ==> Equals(a, Some(c))
  {
  }

  /**
   * `hashCode`: the three component hashes combined as `31 * h + x` in 32-bit
   * arithmetic. The hashes of a string and of an enum constant come from the
   * Java library and are parameters here.
   */
  function HashCode(a: Art, stringHash: string -> int32, typeHash: ArtType -> int32): (r: int32)
    ensures (r - (961 * stringHash(a.name) + 31 * typeHash(a.artType) + stringHash(a.artist))) % TWO_32 == 0
  {
    var result := stringHash(a.name);
    var result' := Add32(Mul32(31, result), typeHash(a.artType));
    var r := Add32(Mul32(31, result'), stringHash(a.artist));
    HashSteps(result, typeHash(a.artType), stringHash(a.artist));
    r
  }

  /** The two `31 * h + x` steps in `int` arithmetic agree with the polynomial modulo 2^32. */
  lemma HashSteps(h: int32, t: int32, s: int32)
    ensures (Add32(Mul32(31, Add32(Mul32(31, h), t)), s) - (961 * h + 31 * t + s)) % TWO_32 == 0
  {
    var a1 := Add32(Mul32(31, h), t);
    // a1 is congruent to 31 * h + t
    SumOfMultiples(Mul32(31, h) - 31 * h, a1 - (Mul32(31, h) + t));
    // 31 * a1 is congruent to 961 * h + 31 * t
    ScaledMultiple(a1 - (31 * h + t));
    var r := Add32(Mul32(31, a1), s);
    SumOfMultiples(Mul32(31, a1) - 31 * a1, r - (Mul32(31, a1) + s));
    SumOfMultiples(r - (31 * a1 + s), 31 * a1 - (961 * h + 31 * t));
  }

  lemma SumOfMultiples(x: int, y: int)
    requires x % TWO_32 == 0 && y % TWO_32 == 0
    ensures (x + y) % TWO_32 == 0
  {
    assert x + y == (x / TWO_32 + y / TWO_32) * TWO_32;
  }

  lemma ScaledMultiple(x: int)
    requires x % TWO_32 == 0
    ensures (31 * x) % TWO_32 == 0
  {
    assert 31 * x == (31 * (x / TWO_32)) * TWO_32;
  }

  /** Equal records have equal hash codes, whatever the component hashes are. */
  lemma HashCodeAgreesWithEquals(a: Art, b: Art, stringHash: string -> int32, typeHash: ArtType -> int32)
    requires Equals(a, Some(b))
    ensures HashCode(a, stringHash, typeHash) == HashCode(b, stringHash, typeHash)
  {
  }
}
