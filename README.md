# Revisioned file store and tag index

This project models the two data classes of a small markdown publishing server:

- `Storage` (modules/Storage.js), a revisioned object store on the file system. Every object is a directory named by its id under a root directory. Every revision is a file `<rev>-<uid>.json` in it holding the whole record. The latest revision is the file that sorts last under a numeric-aware, case-insensitive natural sort (`alphanumSort`). `put` numbers and writes a new revision, `get` reads the last-sorted file, `rev` reads the number off it, `clean` deletes every `.json` file but the last-sorted one, and `allSync`/`all` list the object ids.
- `Tags` (modules/Tags.js), a tag index: the file `<root>/<tag>/<articleId>` records that the article carries the tag. `getArticlesByTags` intersects the article sets of a list of tags.

The Dafny modules follow the program's structure:

| module | file | what it holds |
|---|---|---|
| `Results` | results.dfy | `Option`, `Result` and the errors the source throws |
| `JsValues` | js_values.dfy | the primitive JavaScript values records hold, truthiness, `rev += 1`, template-literal text |
| `Numerals` | numerals.dfy | decimal digits, `parseInt(s, 10)`, `split('-')[0]`, decimal text of numbers |
| `Collation` | collation.dfy | the natural sort order, the latest name of a listing, `alphanumSort` |
| `RevisionFiles` | revision_files.dfy | revision file names: how `put` forms them and how `rev` reads them |
| `Store` | storage.dfy | class `Storage` over a model of the file system, and the functions that specify it |
| `StoreProperties` | store_properties.dfy | what the store promises across operations |
| `TagIndex` | tags.dfy | class `Tags` and the functions and lemmas of the tag index |

The file system a `Storage` sees is its field `fs`: root path to object id to file name to record. Methods change it the way the source changes the disk: `mkdirSync` adds a directory, `writeFileSync` sets a file, and `unlinkSync` removes one, one file at a time in `clean`. Every method is proved against a function of the old state: `Put` against `Written` and `NextRevision`, `Clean` against `CleanObjects`, `Get` against `Current`, and `Rev` against `RevisionOf`. The lemmas in `StoreProperties` say what those functions mean:

- `clean` keeps exactly the latest `.json` file and every other file.
- A second `clean` deletes nothing, whatever order it lists the objects in.
- `clean` never changes what `get` returns.
- An auto-numbered revision is positive. Unless the latest `.json` name starts with an ASCII letter, it is above the leading number of every numbered `.json` name.
- Unless the latest `.json` name starts with an ASCII letter, `get` returns what an auto-numbered `put` wrote. Otherwise `get` goes on returning the record of that file.

The natural sort is modelled concretely.

- A name is cut into chunks: a run of decimal digits is one number chunk, an ASCII letter is one letter chunk compared without case, and any other character is a symbol chunk compared by its code.
- Symbols sort before numbers, and numbers sort before letters.
- Names are compared chunk by chunk.
- Names with equal chunks (for example "A.json" and "a.json") are ordered by their code units.

`Collation` proves this order is a strict total order, so every listing has one latest name and exactly one increasing arrangement.

Three behaviours of the source the model keeps:

- `get` of a missing object, or of one without `.json` files, returns `null` (modules/Storage.js:185, 190).
- `put` overwrites a file whose name already exists, because `writeFileSync` replaces it (modules/Storage.js:246).
- A `.json` file whose name starts with an ASCII letter sorts after every revision file name with a non-negative number. While it is the latest, every auto-numbered revision `put` writes stays hidden from `get` (`StoreProperties.StrayJsonShadowsPut`). With any other latest name the round trip of an auto-numbered `put` holds (`StoreProperties.PutThenGet`). Names starting with a non-ASCII letter are outside the modelled collation (see "## Left out").

## Model

| member | source | states |
|---|---|---|
| Collation.LessIrreflexive | modules/Storage.js:33-35 | no name sorts before itself |
| Collation.LessAsymmetric | modules/Storage.js:33-35 | two names never sort before each other both ways |
| Collation.LessTransitive | modules/Storage.js:33-35 | the natural order is transitive |
| Collation.LessTotal | modules/Storage.js:33-35 | of two different names one always sorts first, so "latest" is well defined |
| Collation.Key | modules/Storage.js:34 | a name has an empty key only when it is empty, and its letter chunks are all lower case |
| Collation.KeyIgnoresCase | modules/Storage.js:34 | names that differ only in ASCII case have the same key, so case never decides the order between names whose keys differ |
| Collation.DigitRunSame | modules/Storage.js:34 | names that differ only in ASCII case have the same leading digit run |
| Collation.Less | modules/Storage.js:34 | the collator's comparison: keys first, code units only between names with equal keys (the order's laws are the lemmas below) |
| Collation.KeyLessTotal | modules/Storage.js:33-35 | the chunk-by-chunk comparison orders any two different chunk sequences |
| Collation.LatestExists | modules/Storage.js:33-35 | every non-empty listing has a name that sorts after all others |
| Collation.LatestUnique | modules/Storage.js:33-35 | that name is unique |
| Collation.Latest | modules/Storage.js:33-35 | the latest name belongs to the listing and sorts after every other name of it |
| Collation.LatestAdded | modules/Storage.js:33-35 | a name sorting after the latest name of a listing is the latest once added |
| Collation.LatestOfOne | modules/Storage.js:33-35 | the latest of a one-name listing is that name |
| Collation.AlphanumSort | modules/Storage.js:33-35 | the sorted listing holds exactly the listed names, each once, in strictly increasing order |
| Collation.SortedLast | modules/Storage.js:123-124 | the last element of any increasing arrangement of a listing is its latest name |
| Collation.SortedUnique | modules/Storage.js:33-35 | any strictly increasing arrangement of a listing is the one `alphanumSort` returns |
| Numerals.DigitRun | modules/Storage.js:128 | the run of digits `parseInt` reads is maximal: all digits, followed by a non-digit or the end |
| Numerals.TrimStart | modules/Storage.js:128 | `parseInt` skips exactly the leading JavaScript white space |
| Numerals.ParseInt | modules/Storage.js:128 | a string starting with a digit reads as its leading digit run; a negative result needs a '-' in the text |
| Numerals.LeadingDigitsRead | modules/Storage.js:127-128 | `parseInt(name.split('-')[0])` of a digit-initial name reads its leading digit run |
| Numerals.ParseIntOfDigits | modules/Storage.js:128 | `parseInt` of digits followed by a non-digit is the number the digits denote |
| Numerals.NatToString | modules/Storage.js:242 | the decimal text of a number is a non-empty digit string denoting that number |
| Numerals.ParseIntOfNatToString | modules/Storage.js:128 | `parseInt` reads back the decimal text of any non-negative number |
| Numerals.FirstField | modules/Storage.js:127 | `split('-')[0]` is a prefix of the name without '-', followed by '-' unless it is the whole name |
| Numerals.FirstFieldOfDigits | modules/Storage.js:127 | for digits followed by '-', the first field is those digits |
| Numerals.FirstFieldAfterDigits | modules/Storage.js:127 | leading digits stay at the head of the first field |
| JsValues.PlusOne | modules/Storage.js:228 | `rev += 1` never yields the value it started from, and adds one to a number |
| JsValues.Truthy | modules/Storage.js:207-208 | the falsy values are exactly `null`, `false`, `0` and `''` |
| RevisionFiles.NumberedRevision | modules/Storage.js:127-129 | `rev` reads the leading number of a name of the form digits, '-', anything |
| RevisionFiles.RevisionNumber | modules/Storage.js:127-129 | `rev` never reads a negative number (the text before the first '-' holds no sign), and reads the leading digits of a digit-initial name |
| RevisionFiles.FileName | modules/Storage.js:242 | `${rev}-${uid}.json` is always a `.json` name, one that `rev`, `get` and `clean` list |
| RevisionFiles.NumberedOrder | modules/Storage.js:33-35 | between such names a lower revision sorts first and a name sorting first never has the higher revision |
| RevisionFiles.LatestHighest | modules/Storage.js:122-129 | the latest of a set of numbered names carries the highest revision, and `rev` reads that revision |
| RevisionFiles.FileNameNumbered | modules/Storage.js:242 | the name `put` forms for a non-negative revision is a numbered `.json` name whose leading number is that revision |
| RevisionFiles.NumberedBeforeLetter | modules/Storage.js:33-35 | a name starting with an ASCII letter sorts after every numbered name |
| RevisionFiles.NewRevisionSortsLast | modules/Storage.js:222-242 | the name an auto-numbered `put` forms from a latest name not starting with an ASCII letter sorts after that name |
| RevisionFiles.BaseRevision | modules/Storage.js:120 | the stand-in name "0-a.json" reads as revision 0 |
| Store.Storage.Open | modules/Storage.js:45-53 | without a truthy `db` no root is set; a string `db` is set as root and created if missing; any other truthy `db` throws |
| Store.Storage.SetPath | modules/Storage.js:59-67 | the root is set, exists afterwards, and an existing root keeps its contents |
| Store.Storage.Has | modules/Storage.js:137-140 | true exactly when the object's directory exists (the root itself for the empty id); throws without a root |
| Store.Storage.Rev | modules/Storage.js:109-130 | 0 for a missing directory or one without `.json` files, else the revision read off the latest `.json` name (1 when unreadable) |
| Store.Storage.AllSync | modules/Storage.js:168-173 | each root entry not starting with '.' exactly once; nothing when the root is unset or missing |
| Store.Storage.All | modules/Storage.js:147-162 | the same ids as `allSync` |
| Store.Storage.Get | modules/Storage.js:180-198 | throws on an empty id; nothing for a missing directory or one without `.json` files; else the record of the latest `.json` file |
| Store.Storage.DecideRevision | modules/Storage.js:210-228 | the stored revision is `data.rev + 1` when `data` has its own `rev`, else `rev(id) + 1` when the directory exists, else 1 |
| Store.Stamped | modules/Storage.js:234 | `{ ...data, rev, uid }`: every field of `data` but `rev` and `uid` is kept, and `rev` and `uid` are set |
| Store.Storage.WriteFile | modules/Storage.js:236-246 | creates the object directory only when missing and sets exactly one file |
| Store.Storage.WriteRevision | modules/Storage.js:210-246 | returns `data` stamped with the new `rev` and `uid` and writes it to `<rev>-<uid>.json` |
| Store.Storage.Put | modules/Storage.js:205-250 | throws on missing `data` or falsy `data.id` with the disk unchanged; else writes and returns the stamped record |
| Store.Storage.Unlink | modules/Storage.js:93-98 | deletes the given files of one directory, each present and listed once, and returns their paths in order |
| Store.Storage.CleanDirectory | modules/Storage.js:86-98 | deletes the stale `.json` files of one directory, as `CleanObject` specifies |
| Store.Storage.CleanEach | modules/Storage.js:81-99 | cleans the listed objects one after the other; missing directories are skipped |
| Store.Storage.Clean | modules/Storage.js:74-102 | cleans the given id, or every id `allSync` lists when none is given, and returns the deleted paths |
| StoreProperties.StaleContents | modules/Storage.js:87-91 | the files `clean` deletes are all `.json` files but the latest, in increasing order |
| StoreProperties.CompactedContents | modules/Storage.js:86-98 | after `clean` a directory keeps every non-`.json` file and exactly one `.json` file, the latest, with unchanged contents |
| StoreProperties.CompactedNewest | modules/Storage.js:86-91 | compacting a directory does not change the record `get` reads from it |
| StoreProperties.CompactedStable | modules/Storage.js:86-98 | a compacted directory has nothing stale, and compacting it again changes nothing |
| StoreProperties.CleanObjectsState | modules/Storage.js:76-99 | cleaning a list of ids compacts exactly the listed objects, whatever their order and repetition |
| StoreProperties.CleanObjectsQuiet | modules/Storage.js:76-99 | cleaning objects without stale revisions deletes nothing and changes nothing |
| StoreProperties.CleanTwice | modules/Storage.js:74-102 | a second `clean` of the same ids, listed in any order (as `allSync` may), returns no paths and leaves the store as it was |
| StoreProperties.CleanKeepsCurrent | modules/Storage.js:86-91 | `clean` never changes what `get` returns for any object |
| StoreProperties.AutoRevisionPositive | modules/Storage.js:219-228 | without a `rev` in `data`, the stored revision is an integer of at least 1 |
| StoreProperties.AutoRevisionAbove | modules/Storage.js:221-228 | without a `rev` in `data` and unless the latest `.json` name starts with an ASCII letter, the stored revision is above the leading number of every numbered `.json` name |
| StoreProperties.NumberedAtMost | modules/Storage.js:122-129 | a numbered name at or before a latest name not starting with an ASCII letter has a leading number no higher than the revision read off it |
| StoreProperties.WellNamedLatest | modules/Storage.js:122-124 | in a directory of numbered `.json` names the latest does not start with an ASCII letter |
| StoreProperties.WrittenFrame | modules/Storage.js:236-246 | a write adds only the root, the object directory and the file where missing, stores the record, and changes no other file of any object |
| StoreProperties.PutThenGet | modules/Storage.js:219-246 | unless the latest `.json` name starts with an ASCII letter, after an auto-numbered `put` `get` returns the record `put` returned |
| StoreProperties.PutKeepsWellNamed | modules/Storage.js:241-246 | a `put` with a non-negative revision keeps every `.json` name of the directory numbered |
| StoreProperties.StrayJsonShadowsPut | modules/Storage.js:188-193 | while a `.json` name starting with an ASCII letter is the latest, an auto-numbered `put` does not change what `get` returns |
| TagIndex.WithMarker | modules/Tags.js:31-40 | adding a marker adds the article to that tag only, and creates the tag directory |
| TagIndex.WithoutMarker | modules/Tags.js:47-55 | removing a marker removes the article from that tag only, and keeps the tag directory |
| TagIndex.Reduce | modules/Tags.js:78-81 | the `reduce` from `null` yields nothing exactly for no tags, else the articles carrying every listed tag |
| TagIndex.Narrow | modules/Tags.js:79-80 | one step of the `reduce`: the tag's articles, kept only where the accumulated set has them |
| TagIndex.ArticlesByTags | modules/Tags.js:75-82 | an article is in the answer exactly when the list is non-empty and every listed tag has it |
| TagIndex.AddIdempotent | modules/Tags.js:31-40 | adding the same marker twice leaves the index as adding it once |
| TagIndex.RemoveAbsent | modules/Tags.js:47-55 | removing a marker that is absent changes nothing |
| TagIndex.RemoveUndoesAdd | modules/Tags.js:47-55 | removing a marker just added restores every tag's articles |
| TagIndex.ByOneTag | modules/Tags.js:75-82 | for one tag the answer is that tag's articles |
| TagIndex.ByTagsSameTags | modules/Tags.js:75-82 | lists naming the same tags give the same answer, whatever the order and repetition |
| TagIndex.AddGrowsByTags | modules/Tags.js:75-82 | adding a marker never removes an article from any answer |
| TagIndex.DocumentedExample | modules/Tags.js:85-90 | with article1 tagged news and tech and article2 tagged tech, news and tech give exactly article1 |
| TagIndex.Tags.Open | modules/Tags.js:20-24 | throws without a truthy `config.db`, else keeps `config.db` as the root |
| TagIndex.Tags.AddTag | modules/Tags.js:31-40 | adds the marker; with an empty id creates the directory and fails on the marker; throws for a non-string root |
| TagIndex.Tags.RemoveTag | modules/Tags.js:47-55 | removes the marker if present and nothing else; an empty id names the directory, which cannot be unlinked |
| TagIndex.Tags.GetArticlesForTag | modules/Tags.js:62-68 | the tag's articles, each once; nothing for a missing tag directory |
| TagIndex.Tags.GetArticlesByTags | modules/Tags.js:75-82 | the empty set for no tags, else the articles carrying every listed tag |

## Left out

- UUID generation (modules/Storage.js:18-26) uses `crypto` and `Math.random`. The uid is a parameter of `Put`, and a uid that repeats an existing file name overwrites that file, as `writeFileSync` does.
- `Intl.Collator` with `numeric: true, sensitivity: 'base'` follows the locale's collation tables. The model's key covers ASCII letters without case, digit runs as numbers, and other characters by code. Accents, non-ASCII letters, ignorable characters and the collator's own order among punctuation are not modelled.
- Collation.Less: names the collator treats as equal (different case, or leading zeros such as "01-a.json" and "1-a.json") keep their directory-listing order under the stable sort. The model orders them by code units instead, because listing order is not part of the model.
- `resolve` and `join` are not modelled as path algebra. Root paths are kept as given, and ids and file names are single path segments. An id containing '/' or '..' would address another directory, and the id '.' addresses the root itself: `has('.')` is true in the source and false in the model, and `put({id: '.'})` writes into the root. The empty id addresses the root itself, as `join` makes it do.
- Every entry under a store root is modelled as a directory. A plain file there would make `readdirSync` throw in `clean`.
- The `existsSync` test in the `allSync`/`all` filter holds for every listed entry without a concurrent delete, so it is left out.
- The callback error path of `all()` (a failing `readdir`) is not modelled.
- JSON serialization and pretty-printing are not modelled: a record is stored and read back as it is. A malformed `.json` file, on which `get` would throw, is not modelled.
- Records hold null, booleans, integers and strings. Floating-point numbers, `undefined`, arrays and nested objects are not modelled.
- JsValues.PlusOne: integers are unbounded, so the source's loss of precision above 2^53 is not modelled.
- Concurrent writers and the `clean`/`put` race need several processes; the model is sequential.
- TagIndex.Tags.AddTag, TagIndex.Tags.RemoveTag, TagIndex.Tags.GetArticlesForTag and TagIndex.Tags.GetArticlesByTags require each tag to be a single path segment. The empty tag, '.', '..' or a name with '/' would make `join` address the root or another directory, which the one-level index does not represent. Article ids must be a single segment or empty.
- The content of a tag marker (the text '1') is not modelled; only its existence is.
- The tag root is not created or tracked. Only the tag directories under it are.
