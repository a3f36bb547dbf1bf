# Art gallery: a Dafny model

This project models the two classes of the `vvakar` art gallery library:

- `Art` (src/main/java/vvakar/Art.java): an immutable artwork record with a
  name, a type, an optional price in pence, an artist and a creation date. The
  constructor validates its arguments in a fixed order and throws
  `IllegalArgumentException` with a message naming the first failing check.
  `getCreated` hands out a fresh copy of the mutable `Date`. Two records are
  equal when name, type and artist agree; price and date do not count, and
  `hashCode` is built from the same three fields.
- `ThreadSafeGalleryImpl` (src/main/java/vvakar/gallery/ThreadSafeGalleryImpl.java):
  a map from `Art` to `Art` with `addArt` (`put(toAdd, toAdd)`), `deleteArt`
  (`remove`), `getAllArt`, which returns the map's key set itself, and four
  queries that stream over that key set.

Files:

- `wrappers.dfy` (module `Wrappers`): `Option` for Java's `null`, `Result` for
  a value or a thrown exception.
- `java_ints.dfy` (module `JavaInts`): Java `int` and `long` as bounded integer
  types, and the wrap-around of Java arithmetic on them.
- `art.dfy` (module `ArtRecord`): the record, its constructor, `getCreated`,
  `equals`, `hashCode`, and a small mutable `Date` class.
- `gallery.dfy` (module `Gallery`): the store as a class `ThreadSafeGallery`
  whose field `artObjects` is a `map` that `AddArt` and `DeleteArt` reassign;
  the queries are functions of that field.

Points where the model follows the code closely:

- **The map keeps its first key.** Java's `Map.put` replaces the value of an
  existing entry but keeps its key object. Each entry of the model is an
  `Entry(key, value)`. `AddArt` and `DeleteArt` return the value, which is the
  most recently added record. The queries read the keys, so they report the
  price and date of the record that first created the identity
  (`ReAddKeepsFirstRecord` shows this end to end). This goes against the
  documentation of `addArt` in `Gallery.java`, which promises "replacing any
  existing equivalent piece": after an equal record with a new price and date
  is added, `getArtByPrice` and `getRecentArt` still judge the first record's
  price and date.
- **The "one year" constant wraps.** `1000 * 60 * 60 * 24 * 365` is evaluated
  in 32-bit `int` arithmetic before it is widened to `long`. It therefore is
  1,471,228,928 ms (31,536,000,000 − 7·2³²), about 17 days. The model computes
  it with 32-bit multiplications and proves this value (`OneYearWindowWraps`).
  `getRecentArt` thus returns the records of roughly the last 17 days, although
  the documentation says "the past year".
- **No alphabetic order.** The documentation of `getArtists` promises
  alphabetic order, but the code collects into an unordered set. The model
  returns a `set<string>`.
- `getRecentArt` subtracts in `long` arithmetic. The model wraps that
  subtraction too. The plain characterisation "created less than
  1,471,228,928 ms before `now`" is proved for every `now` at which the
  subtraction does not overflow.

## Model

| member | source | states |
|---|---|---|
| `ArtRecord.NewArt` | src/main/java/vvakar/Art.java:27-39 | construction succeeds exactly when name, type, artist and date are present and the price is absent or non-negative; otherwise the error carries the message of the first failing check in the order name, type, artist, created, price; on success the record holds the given fields and the price as given (absent stays absent) |
| `ArtRecord.NewArtRebuilds` | src/main/java/vvakar/Art.java:34-38 | every record whose price is absent or non-negative is exactly what the constructor builds from its own fields |
| `ArtRecord.MissingFieldRejected` | src/main/java/vvakar/Art.java:28-31 | a missing name, type, artist or date makes construction fail whatever the price, and the failure is never the price message |
| `ArtRecord.Create` | src/main/java/vvakar/Art.java:27-39 | the constructor called with a possibly null `Date` object behaves as the validation above, applied to the time that object holds at the moment of the call |
| `ArtRecord.GetCreated` | src/main/java/vvakar/Art.java:45-47 | every call returns a newly allocated `Date` holding the stored creation time |
| `ArtRecord.ReturnedDateIsACopy` | src/main/java/vvakar/Art.java:45-47 | two `Date`s obtained from two calls are distinct objects: after both are handed out, changing the first leaves the second holding the stored creation time |
| `ArtRecord.Equals` | src/main/java/vvakar/Art.java:50-59 | a record equals another object exactly when that object is a record (not null) with the same name, type and artist |
| `ArtRecord.EqualsIgnoresPriceAndDate` | src/main/java/vvakar/Art.java:50-59 | changing a record's price and date yields a record equal to it |
| `ArtRecord.EqualsIsEquivalence` | src/main/java/vvakar/Art.java:50-59 | equality is reflexive, symmetric and transitive |
| `ArtRecord.HashCode` | src/main/java/vvakar/Art.java:63-68 | the hash combines the name, type and artist hashes as Java does in `int` arithmetic: modulo 2^32 it is 31²·hash(name) + 31·hash(type) + hash(artist), and nothing else of the record enters it |
| `ArtRecord.HashSteps` | src/main/java/vvakar/Art.java:64-67 | the two wrapped `31 * result + x` steps agree modulo 2^32 with the exact polynomial |
| `ArtRecord.HashCodeAgreesWithEquals` | src/main/java/vvakar/Art.java:63-68 | equal records have equal hash codes, for any string and enum hash functions |
| `JavaInts.Wrap32` | src/main/java/vvakar/gallery/ThreadSafeGalleryImpl.java:16 | a Java `int` result is the representable value congruent to the exact value modulo 2^32, and equals it when it fits |
| `JavaInts.Wrap64` | src/main/java/vvakar/gallery/ThreadSafeGalleryImpl.java:65 | a Java `long` result is the representable value congruent to the exact value modulo 2^64, and equals it when it fits |
| `Gallery.OneYearWindowWraps` | src/main/java/vvakar/gallery/ThreadSafeGalleryImpl.java:16 | the "one year" constant is 1,471,228,928 ms, the exact product minus 7·2^32, between 17 and 18 days |
| `Gallery.KeyRecords` | src/main/java/vvakar/gallery/ThreadSafeGalleryImpl.java:39 | a record is in the key set exactly when its identity is stored and it is the key object of that entry |
| `Gallery.KeyRecordsSize` | src/main/java/vvakar/gallery/ThreadSafeGalleryImpl.java:39 | the key set has as many records as the map has entries |
| `Gallery.KeyRecordsReplaceValue` | src/main/java/vvakar/gallery/ThreadSafeGalleryImpl.java:20 | replacing the value of a stored identity keeps the map well keyed and leaves the key set unchanged |
| `Gallery.KeyRecordsInsert` | src/main/java/vvakar/gallery/ThreadSafeGalleryImpl.java:20 | filing a record under a new identity adds exactly that record to the key set |
| `Gallery.KeyRecordsRemove` | src/main/java/vvakar/gallery/ThreadSafeGalleryImpl.java:31 | removing an identity removes exactly its key object from the key set |
| `Gallery.ThreadSafeGallery.constructor` | src/main/java/vvakar/gallery/ThreadSafeGalleryImpl.java:17 | a new gallery holds no entries |
| `Gallery.ThreadSafeGallery.AddArt` | src/main/java/vvakar/gallery/ThreadSafeGalleryImpl.java:19-21 | returns null for a new identity and the previously stored value otherwise; afterwards the identity is stored with `toAdd` as value and the first key object kept, every other entry is unchanged, and `getAllArt` grows by `toAdd` only when the identity was new |
| `Gallery.ThreadSafeGallery.DeleteArt` | src/main/java/vvakar/gallery/ThreadSafeGalleryImpl.java:30-32 | returns the stored value, or null when the identity is absent; afterwards exactly that identity is gone and `getAllArt` loses exactly its key object |
| `Gallery.ThreadSafeGallery.GetAllArt` | src/main/java/vvakar/gallery/ThreadSafeGalleryImpl.java:38-40 | one record per stored identity: as many records as entries, and no two returned records are equal |
| `Gallery.ThreadSafeGallery.GetArtists` | src/main/java/vvakar/gallery/ThreadSafeGalleryImpl.java:46-48 | exactly the artists of the stored identities, as an unordered set |
| `Gallery.ThreadSafeGallery.GetArtByArtist` | src/main/java/vvakar/gallery/ThreadSafeGalleryImpl.java:54-56 | a subset of `getAllArt`; a record is returned exactly when it is a stored key object whose artist equals the argument; a null argument equals no artist and gives the empty set |
| `Gallery.ThreadSafeGallery.GetRecentArt` | src/main/java/vvakar/gallery/ThreadSafeGalleryImpl.java:62-67 | a subset of `getAllArt`; when `now` minus the window does not overflow, a stored record is returned exactly when it was created less than 1,471,228,928 ms before `now` |
| `Gallery.ThreadSafeGallery.GetArtByPrice` | src/main/java/vvakar/gallery/ThreadSafeGalleryImpl.java:76-82 | a subset of `getAllArt` holding no priceless record; a stored record is returned exactly when it has a price within the given inclusive bounds |
| `Gallery.ArtistsMatchArtByArtist` | src/main/java/vvakar/gallery/ThreadSafeGalleryImpl.java:46-56 | an artist is listed by `getArtists` exactly when `getArtByArtist` finds a record for that artist |
| `Gallery.ArtByArtistCoversAll` | src/main/java/vvakar/gallery/ThreadSafeGalleryImpl.java:54-56 | every stored record is found by `getArtByArtist` under its own artist |
| `Gallery.ArtByPriceMonotone` | src/main/java/vvakar/gallery/ThreadSafeGalleryImpl.java:76-82 | loosening or dropping either bound never removes a result |
| `Gallery.ArtByPriceBoundsIntersect` | src/main/java/vvakar/gallery/ThreadSafeGalleryImpl.java:76-82 | the result for both bounds is the intersection of the results for each bound alone |
| `Gallery.ArtByPriceUnbounded` | src/main/java/vvakar/gallery/ThreadSafeGalleryImpl.java:76-82 | with no bounds, exactly the stored records that have a price are returned |
| `Gallery.AddTwiceDeleteTwice` | src/main/java/vvakar/gallery/ThreadSafeGalleryImpl.java:19-32 | on a new gallery, adding a record twice returns null then the record; deleting it twice returns the record then null |
| `Gallery.ReAddKeepsFirstRecord` | src/main/java/vvakar/gallery/ThreadSafeGalleryImpl.java:19-82 | after adding a record and then an equal one with a new price and date, `getAllArt` and the price query still show the first record, while `deleteArt` returns the second |

## Left out

- Thread safety: the `ConcurrentHashMap` and the weakly consistent iteration of its key set are not modelled; the store is sequential and every query returns the set at the time of the call, not a live view.
- The clock: `System.currentTimeMillis()` and `new Date()` in `getRecentArt` are replaced by the parameter `now`.
- `Art.toString`: string formatting with no contract.
- Concrete hash values: `String.hashCode` and the enum's `hashCode` are library calls; `HashCode` takes them as function parameters and models only the `31 * h + x` combination in 32-bit arithmetic.
- `ArtType`: its source file is not part of this model; the datatype holds `PAINTING` and `TAPESTRY`, the values the tests use, and `SCULPTURE`, an assumed value standing for the enum's further constants.
- `Gallery.java` is an interface with no logic; its documentation is used only as a source of contracts.
- Null arguments to `addArt` and `deleteArt` (which make the Java map throw `NullPointerException`) and `equals` called with an object of another class: arguments of the store operations are records, and `Equals` takes a record or null.
- `Gallery.ThreadSafeGallery.GetArtByPrice`: its bounds are never null. In Java the three filters at lines 78-80 run one record at a time and read a bound only when needed: a null `from` throws `NullPointerException` at line 79 once any priced record is stored, and a null `to` throws at line 80 only when some priced record passes the lower bound; otherwise the result is the empty set. The model does not capture that exception. A null `getArtByArtist` argument is modelled (`None`, empty result).
- Strings are sequences of Unicode characters rather than UTF-16 code units; no operation here depends on the difference.
