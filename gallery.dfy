/**
 * The in-memory gallery (src/main/java/vvakar/gallery/ThreadSafeGalleryImpl.java).
 *
 * The Java store is a hash map from `Art` to `Art` whose keys are compared by
 * `Art.equals`, that is by identity (name, type, artist). Here the map is keyed
 * by that identity directly, and each entry keeps both objects the Java map
 * holds: the KEY object, which is the record that first created the entry, and
 * the VALUE object, which is the record most recently added. `put` replaces the
 * value and keeps the key; the queries read the keys.
 */
module Gallery {
  import opened Wrappers
  import opened JavaInts
  import opened ArtRecord

  /**
   * The "one year" window, computed as the source does: the product is formed
   * in 32-bit `int` arithmetic and only then widened to `long`.
   */
  const APPROX_ONE_YEAR_MILLIS: int64 := Mul32(Mul32(Mul32(Mul32(1000, 60), 60), 24), 365)

  /** One map entry: the key object and the value object. */
  datatype Entry = Entry(key: Art, value: Art)

  type Store = map<Identity, Entry>

  /** Both objects of every entry carry the identity they are filed under. */
  ghost predicate WellKeyed(m: Store)
  {
    forall id :: id in m ==> m[id].key.Id() == id && m[id].value.Id() == id
  }

  /** The map's `keySet()`: the key object of every entry. */
  function KeyRecords(m: Store): (r: set<Art>)
    requires WellKeyed(m)
    ensures forall a :: a in r <==> a.Id() in m && m[a.Id()].key == a
  {
    set id | id in m :: m[id].key
  }

  /** Distinct entries have distinct key objects, so the key set is as large as the map. */
  lemma {:induction false} KeyRecordsSize(m: Store)
    requires WellKeyed(m)
    ensures |KeyRecords(m)| == |m|
    decreases |m|
  {
    if m != map[] {
      var id :| id in m;
      var rest := m - {id};
      KeyRecordsSize(rest);
      assert KeyRecords(m) == KeyRecords(rest) + {m[id].key};
      assert m[id].key !in KeyRecords(rest);
      assert m.Keys == rest.Keys + {id};
    }
  }

  /** Replacing the value of a stored identity leaves the key set as it was. */
  lemma KeyRecordsReplaceValue(m: Store, value: Art)
    requires WellKeyed(m) && value.Id() in m
    ensures WellKeyed(m[value.Id() := Entry(m[value.Id()].key, value)])
    ensures KeyRecords(m[value.Id() := Entry(m[value.Id()].key, value)]) == KeyRecords(m)
  {
  }

  /** Filing a record under a new identity adds exactly that record to the key set. */
  lemma KeyRecordsInsert(m: Store, a: Art)
    requires WellKeyed(m) && a.Id() !in m
    ensures WellKeyed(m[a.Id() := Entry(a, a)])
    ensures KeyRecords(m[a.Id() := Entry(a, a)]) == KeyRecords(m) + {a}
  {
  }

  /** Removing an identity removes exactly its key object from the key set. */
  lemma KeyRecordsRemove(m: Store, id: Identity)
    requires WellKeyed(m) && id in m
    ensures WellKeyed(m - {id})
    ensures KeyRecords(m - {id}) == KeyRecords(m) - {m[id].key}
  {
  }

  /** The 32-bit product wraps: the window is 1,471,228,928 ms (about 17 days), not 365 days. */
  lemma OneYearWindowWraps()
    ensures APPROX_ONE_YEAR_MILLIS == 1_471_228_928
    ensures APPROX_ONE_YEAR_MILLIS == 1000 * 60 * 60 * 24 * 365 - 7 * TWO_32
    ensures 17 * 86_400_000 < APPROX_ONE_YEAR_MILLIS < 18 * 86_400_000
  {
  }

  /** `ThreadSafeGalleryImpl`, without its concurrency. */
  class ThreadSafeGallery {
    var artObjects: Store

    ghost predicate Valid()
      reads this
    {
      WellKeyed(artObjects)
    }

    /** A new gallery is empty. */
    constructor ()
      ensures Valid() && artObjects == map[]
    {
      artObjects := map[];
    }

    /**
     * `addArt`: `put(toAdd, toAdd)`. Returns the value stored for the same
     * identity before, if any. Afterwards the entry's value is `toAdd`; its key
     * is the old key when there was one, otherwise `toAdd`.
     */
    method AddArt(toAdd: Art) returns (replaced: Option<Art>)
      requires Valid()
      modifies this
      ensures Valid()
      ensures toAdd.Id() in old(artObjects) ==> replaced == Some(old(artObjects)[toAdd.Id()].value)
      ensures toAdd.Id() !in old(artObjects) ==> replaced == None
      ensures artObjects.Keys == old(artObjects).Keys + {toAdd.Id()}
      ensures artObjects[toAdd.Id()].value == toAdd
      ensures artObjects[toAdd.Id()].key ==
                if toAdd.Id() in old(artObjects) then old(artObjects)[toAdd.Id()].key else toAdd
      ensures forall id :: id in old(artObjects) && id != toAdd.Id() ==> artObjects[id] == old(artObjects)[id]
      ensures GetAllArt() ==
                if toAdd.Id() in old(artObjects) then old(GetAllArt()) else old(GetAllArt()) + {toAdd}
    {
      var id := toAdd.Id();
      if id in artObjects {
        replaced := Some(artObjects[id].value);
        KeyRecordsReplaceValue(artObjects, toAdd);
        artObjects := artObjects[id := Entry(artObjects[id].key, toAdd)];
      } else {
        replaced := None;
        KeyRecordsInsert(artObjects, toAdd);
        artObjects := artObjects[id := Entry(toAdd, toAdd)];
      }
    }

    /** `deleteArt`: `remove(toRemove)`. Returns the value that was stored for the identity, if any. */
    method DeleteArt(toRemove: Art) returns (removed: Option<Art>)
      requires Valid()
      modifies this
      ensures Valid()
      ensures toRemove.Id() in old(artObjects) ==> removed == Some(old(artObjects)[toRemove.Id()].value)
      ensures toRemove.Id() !in old(artObjects) ==> removed == None
      ensures artObjects == old(artObjects) - {toRemove.Id()}
      ensures GetAllArt() ==
                if toRemove.Id() in old(artObjects)
                then old(GetAllArt()) - {old(artObjects)[toRemove.Id()].key}
                else old(GetAllArt())
    {
      var id := toRemove.Id();
      if id in artObjects {
        removed := Some(artObjects[id].value);
        KeyRecordsRemove(artObjects, id);
        artObjects := artObjects - {id};
      } else {
        removed := None;
      }
    }

    /** `getAllArt`: the key set. One record per stored identity, no two of them equal. */
    function GetAllArt(): (r: set<Art>)
      reads this
      requires Valid()
      ensures |r| == |artObjects|
      ensures forall a, b :: a in r && b in r && Equals(a, Some(b)) ==> a == b
    {
      KeyRecordsSize(artObjects);
      KeyRecords(artObjects)
    }

    /** `getArtists`: the artist of every stored identity, as an unordered set. */
    function GetArtists(): (r: set<string>)
      reads this
      requires Valid()
      ensures r == set id | id in artObjects :: id.artist
    {
      set a | a in GetAllArt() :: a.artist
    }

    /**
     * `getArtByArtist`: the stored records whose artist is exactly `artist`.
     * A `null` argument (`None`) equals no record's artist, so nothing is returned.
     */
    function GetArtByArtist(artist: Option<string>): (r: set<Art>)
      reads this
      requires Valid()
      ensures r <= GetAllArt()
      ensures forall a :: a in r <==>
                a.Id() in artObjects && artObjects[a.Id()].key == a && artist == Some(a.artist)
      ensures artist.None? ==> r == {}
    {
      set a | a in GetAllArt() && Some(a.artist) == artist
    }

    /**
     * `getRecentArt` with the clock reading `now` as a parameter: the records
     * created strictly after `now - APPROX_ONE_YEAR_MILLIS`, the subtraction
     * done in `long` arithmetic.
     */
    function GetRecentArt(now: int64): (r: set<Art>)
      reads this
      requires Valid()
      ensures r <= GetAllArt()
      ensures now >= -0x8000_0000_0000_0000 + APPROX_ONE_YEAR_MILLIS ==>
                forall a :: a in r <==> a in GetAllArt() && now - a.created < 1_471_228_928
    {
      var yearAgo := Sub64(now, APPROX_ONE_YEAR_MILLIS);
      set a | a in GetAllArt() && a.created > yearAgo
    }

    /**
     * `getArtByPrice`: the stored records that have a price, the price at
     * least `from` when `from` is given and at most `to` when `to` is given.
     */
    function GetArtByPrice(from: Option<int32>, to: Option<int32>): (r: set<Art>)
      reads this
      requires Valid()
      ensures r <= GetAllArt()
      ensures forall a :: a in r ==> a.pricePence.Some?
      ensures forall a :: a in r <==>
                a in GetAllArt() && a.pricePence.Some? && InBounds(a.pricePence.value, from, to)
    {
      set a | a in GetAllArt()
        && a.pricePence.Some?
        && (from.None? || a.pricePence.value >= from.value)
        && (to.None? || a.pricePence.value <= to.value)
    }
  }

  /** `p` lies within the optional inclusive bounds. */
  predicate InBounds(p: int, from: Option<int32>, to: Option<int32>)
  {
    (from.Some? ==> from.value <= p) && (to.Some? ==> p <= to.value)
  }

  /** `loose` is a bound that admits at least what `tight` admits (`None` admits everything). */
  predicate LooserLower(loose: Option<int32>, tight: Option<int32>)
  {
    loose.None? || (tight.Some? && loose.value <= tight.value)
  }

  predicate LooserUpper(loose: Option<int32>, tight: Option<int32>)
  {
    loose.None? || (tight.Some? && tight.value <= loose.value)
  }

  /** An artist is listed exactly when some stored record is by that artist. */
  lemma ArtistsMatchArtByArtist(g: ThreadSafeGallery, artist: string)
    requires g.Valid()
    ensures artist in g.GetArtists() <==> g.GetArtByArtist(Some(artist)) != {}
  {
  }

  /** Every stored record is found under its own artist. */
  lemma ArtByArtistCoversAll(g: ThreadSafeGallery)
    requires g.Valid()
    ensures forall a :: a in g.GetAllArt() ==> a in g.GetArtByArtist(Some(a.artist))
  {
  }

  /** Loosening either price bound never removes a result. */
  lemma ArtByPriceMonotone(g: ThreadSafeGallery, from: Option<int32>, to: Option<int32>,
                           from': Option<int32>, to': Option<int32>)
    requires g.Valid()
    requires LooserLower(from', from) && LooserUpper(to', to)
    ensures g.GetArtByPrice(from, to) <= g.GetArtByPrice(from', to')
  {
  }

  /** Both bounds together select what each bound selects alone. */
  lemma ArtByPriceBoundsIntersect(g: ThreadSafeGallery, from: Option<int32>, to: Option<int32>)
    requires g.Valid()
    ensures g.GetArtByPrice(from, to) == g.GetArtByPrice(from, None) * g.GetArtByPrice(None, to)
  {
  }

  /** With no bounds, exactly the stored records that have a price are returned. */
  lemma ArtByPriceUnbounded(g: ThreadSafeGallery)
    requires g.Valid()
    ensures g.GetArtByPrice(None, None) == set a | a in g.GetAllArt() && a.pricePence.Some?
  {
  }

  /** Adding twice, then deleting twice: null, the record, the record, null. */
  method AddTwiceDeleteTwice(a: Art) returns (add1: Option<Art>, add2: Option<Art>,
                                              del1: Option<Art>, del2: Option<Art>)
    ensures add1 == None && add2 == Some(a)
    ensures del1 == Some(a) && del2 == None
  {
    var g := new ThreadSafeGallery();
    add1 := g.AddArt(a);
    add2 := g.AddArt(a);
    del1 := g.DeleteArt(a);
    del2 := g.DeleteArt(a);
  }

  /**
   * Re-adding an equal record with a new price and date: `addArt` and
   * `deleteArt` hand back the newer record, while `getAllArt` and the price
   * query still see the first one.
   */
  method ReAddKeepsFirstRecord(first: Art, pricePence: Option<int32>, created: int64)
    returns (all: set<Art>, priced: set<Art>, removed: Option<Art>)
    ensures all == {first}
    ensures priced == if first.pricePence.Some? then {first} else {}
    ensures removed == Some(first.(pricePence := pricePence, created := created))
  {
    var second := first.(pricePence := pricePence, created := created);
    var g := new ThreadSafeGallery();
    var _ := g.AddArt(first);
    assert g.GetAllArt() == {first};
    var _ := g.AddArt(second);
    all := g.GetAllArt();
    priced := g.GetArtByPrice(None, None);
    removed := g.DeleteArt(first);
  }
}
