/** What the store promises across operations: what `clean` keeps, that it is idempotent
    and never changes what `get` returns, how `put` numbers revisions, and when `get`
    reads back what `put` wrote. */
module StoreProperties {

  import opened Results
  import opened JsValues
  import opened Numerals
  import opened Collation
  import opened RevisionFiles
  import opened Store

  /** The directories of `objects`, those named in `ids` passed through `f`. */
  function Updated(objects: map<string, Files>, ids: set<string>, f: Files -> Files): (r: map<string, Files>)
    ensures r.Keys == objects.Keys
  {
    map k | k in objects :: if k in ids then f(objects[k]) else objects[k]
  }

  /** The object directories after compacting those named in `ids`. */
  function CompactedAll(objects: Objects, ids: set<string>): Objects
  {
    Updated(objects, ids, Compacted)
  }

  /** Every `.json` name of the object directory carries a leading revision number: the
      shape of every file `put` writes with a non-negative revision. */
  predicate WellNamed(disk: Disk, root: string, id: string)
  {
    forall n :: n in Entries(disk, root, id) && IsJson(n) ==> Numbered(n)
  }

  predicate StartsWithLetter(name: string)
  {
    name != [] && IsLetter(name[0])
  }

  /** The latest `.json` name of the object directory, if there is one, does not start
      with an ASCII letter. */
  predicate LatestNotLetter(disk: Disk, root: string, id: string)
  {
    var json := JsonNames(Entries(disk, root, id));
    json != {} ==> !StartsWithLetter(Latest(json))
  }

  /** A well-named directory's latest `.json` name starts with a digit. */
  lemma WellNamedLatest(disk: Disk, root: string, id: string)
    requires WellNamed(disk, root, id)
    ensures LatestNotLetter(disk, root, id)
  {
    var json := JsonNames(Entries(disk, root, id));
    if json != {} {
      var latest := Latest(json);
      assert Numbered(latest);
      assert IsDigit(latest[0]);
    }
  }

  /** The `.json` files `clean` deletes from a directory are all of them but the latest,
      in increasing order. */
  lemma StaleContents(files: Files)
    ensures SortedStrictly(Stale(files))
    ensures JsonNames(files.Keys) == {} ==> Stale(files) == []
    ensures JsonNames(files.Keys) != {} ==>
              Elements(Stale(files)) == JsonNames(files.Keys) - {Latest(JsonNames(files.Keys))}
  {
    var json := JsonNames(files.Keys);
    var sorted := AlphanumSort(json);
    if sorted != [] {
      SortedLast(sorted, json);
      SortedFront(sorted, json);
    }
  }

  /** A compacted directory keeps every non-`.json` file and exactly one `.json` file,
      the latest, all with their contents; it never gains a file. */
  lemma CompactedContents(files: Files)
    ensures Compacted(files).Keys <= files.Keys
    ensures forall n :: n in Compacted(files) ==> Compacted(files)[n] == files[n]
    ensures forall n :: n in files && !IsJson(n) ==> n in Compacted(files)
    ensures JsonNames(files.Keys) == {} ==> Compacted(files) == files
    ensures JsonNames(files.Keys) != {} ==>
              JsonNames(Compacted(files).Keys) == {Latest(JsonNames(files.Keys))}
  {
    StaleContents(files);
  }

  /** Compacting a directory does not change the record `get` reads from it. */
  lemma CompactedNewest(files: Files)
    ensures Newest(Compacted(files)) == Newest(files)
  {
    CompactedContents(files);
    var json := JsonNames(files.Keys);
    if json != {} {
      LatestOfOne(Latest(json));
    }
  }

  lemma CompactedJson(files: Files)
    ensures |JsonNames(Compacted(files).Keys)| <= 1
  {
    CompactedContents(files);
  }

  /** A directory with at most one `.json` file has nothing stale. */
  lemma StaleOfSingle(files: Files)
    requires |JsonNames(files.Keys)| <= 1
    ensures Stale(files) == []
  {
    var sorted := AlphanumSort(JsonNames(files.Keys));
    assert |sorted| <= 1;
  }

  /** A compacted directory has nothing left for `clean` to delete, so compacting it
      again changes nothing. */
  lemma CompactedStable(files: Files)
    ensures Stale(Compacted(files)) == []
    ensures Compacted(Compacted(files)) == Compacted(files)
  {
    var compacted := Compacted(files);
    CompactedJson(files);
    StaleOfSingle(compacted);
    assert Elements([]) == {};
    assert compacted - {} == compacted;
  }

  lemma ElementsSnoc(ids: seq<string>)
    requires ids != []
    ensures Elements(ids) == Elements(ids[..|ids| - 1]) + {ids[|ids| - 1]}
  {
    assert ids == ids[..|ids| - 1] + [ids[|ids| - 1]];
  }

  /** Cleaning the objects `ids` names compacts each of them, whatever the order of the
      ids and however often one repeats, and leaves every other object as it was. */
  lemma {:induction false} CleanObjectsState(objects: Objects, root: string, ids: seq<string>)
    ensures CleanObjects(objects, root, ids).0 == CompactedAll(objects, Elements(ids))
    decreases |ids|
  {
    if ids == [] {
      assert CompactedAll(objects, {}) == objects;
    } else {
      var front, last := ids[..|ids| - 1], ids[|ids| - 1];
      CleanObjectsState(objects, root, front);
      ElementsSnoc(ids);
      CompactedAllStep(objects, root, Elements(front), last);
    }
  }

  /** Cleaning one more object of a partly compacted store compacts that object too. */
  lemma CompactedAllStep(objects: Objects, root: string, ids: set<string>, last: string)
    ensures CleanObject(CompactedAll(objects, ids), root, last).0 == CompactedAll(objects, ids + {last})
  {
    var before := CompactedAll(objects, ids);
    if last in objects {
      assert Compacted(before[last]) == Compacted(objects[last]) by {
        CompactedStable(objects[last]);
      }
      CompactedAllAdd(objects, ids, last);
    } else {
      CompactedAllSkip(objects, ids, last);
    }
  }

  lemma CompactedAllAdd(objects: Objects, ids: set<string>, last: string)
    requires last in objects
    ensures CompactedAll(objects, ids)[last := Compacted(objects[last])] == CompactedAll(objects, ids + {last})
  {
    UpdatedAdd(objects, ids, Compacted, last);
  }

  lemma CompactedAllSkip(objects: Objects, ids: set<string>, last: string)
    requires last !in objects
    ensures CompactedAll(objects, ids) == CompactedAll(objects, ids + {last})
  {
    UpdatedSkip(objects, ids, Compacted, last);
  }

  lemma UpdatedAdd(objects: map<string, Files>, ids: set<string>, f: Files -> Files, last: string)
    requires last in objects
    ensures Updated(objects, ids, f)[last := f(objects[last])] == Updated(objects, ids + {last}, f)
  {
    var cleaned := Updated(objects, ids, f)[last := f(objects[last])];
    var after := Updated(objects, ids + {last}, f);
    forall k | k in cleaned
      ensures cleaned[k] == after[k]
    {
    }
  }

  lemma UpdatedSkip(objects: map<string, Files>, ids: set<string>, f: Files -> Files, last: string)
    requires last !in objects
    ensures Updated(objects, ids, f) == Updated(objects, ids + {last}, f)
  {
    var before, after := Updated(objects, ids, f), Updated(objects, ids + {last}, f);
    forall k | k in before
      ensures before[k] == after[k]
    {
    }
  }

  /** `clean` deletes nothing from an object without stale revisions. */
  lemma CleanObjectQuiet(objects: Objects, root: string, id: string)
    requires id in objects ==> Stale(objects[id]) == []
    ensures CleanObject(objects, root, id) == (objects, [])
  {
    if id in objects {
      var files := objects[id];
      assert Compacted(files) == files by {
        assert Elements([]) == {};
        RemoveNothing(files, Elements(Stale(files)));
      }
      SetSame(objects, id);
    }
  }

  lemma RemoveNothing<K, V>(m: map<K, V>, s: set<K>)
    requires s == {}
    ensures m - s == m
  {
  }

  lemma SetSame<K, V>(m: map<K, V>, k: K)
    requires k in m
    ensures m[k := m[k]] == m
  {
  }

  /** `clean` deletes nothing from objects that have no stale revisions. */
  lemma {:induction false} CleanObjectsQuiet(objects: Objects, root: string, ids: seq<string>)
    requires forall k :: k in objects && k in ids ==> Stale(objects[k]) == []
    ensures CleanObjects(objects, root, ids) == (objects, [])
    decreases |ids|
  {
    if ids != [] {
      var front, last := ids[..|ids| - 1], ids[|ids| - 1];
      assert forall k :: k in front ==> k in ids;
      CleanObjectsQuiet(objects, root, front);
      assert last in ids;
      CleanObjectQuiet(objects, root, last);
      assert ids[..|ids| - 1] == front;
      assert CleanObjects(objects, root, ids).1 == [] + [];
    }
  }

  /** A second `clean` of the same objects, listed in any order, deletes nothing and
      changes nothing. */
  lemma CleanTwice(objects: Objects, root: string, ids: seq<string>, again: seq<string>)
    requires forall k :: k in ids <==> k in again
    ensures var once := CleanObjects(objects, root, ids).0;
            CleanObjects(once, root, again) == (once, [])
  {
    var once := CleanObjects(objects, root, ids).0;
    CleanObjectsState(objects, root, ids);
    forall k | k in once && k in again
      ensures Stale(once[k]) == []
    {
      CompactedStable(objects[k]);
    }
    CleanObjectsQuiet(once, root, again);
  }

  /** `clean` never changes what `get` returns for any object. */
  lemma CleanKeepsCurrent(disk: Disk, root: string, ids: seq<string>, id: string)
    requires root in disk
    ensures Current(disk[root := CleanObjects(disk[root], root, ids).0], root, id) == Current(disk, root, id)
  {
    CleanObjectsState(disk[root], root, ids);
    if id in disk[root] && id in ids {
      CompactedNewest(disk[root][id]);
    }
  }

  /** The revision an auto-numbered `put` stores is a positive integer. */
  lemma AutoRevisionPositive(disk: Disk, root: string, data: Record, id: string)
    requires "rev" !in data
    ensures NextRevision(disk, root, data, id).Int?
    ensures NextRevision(disk, root, data, id).i >= 1
  {
  }

  /** Unless the latest `.json` name starts with an ASCII letter, the revision an auto-numbered
      `put` stores is higher than the leading number of every numbered `.json` file. */
  lemma AutoRevisionAbove(disk: Disk, root: string, data: Record, id: string)
    requires "rev" !in data && id != ""
    requires LatestNotLetter(disk, root, id)
    ensures forall n :: n in JsonNames(Entries(disk, root, id)) && Numbered(n) ==>
              Leading(n) < NextRevision(disk, root, data, id).i
  {
    var json := JsonNames(Entries(disk, root, id));
    if json != {} {
      var latest := Latest(json);
      assert latest != [] by {
        assert IsJson(latest);
      }
      forall n | n in json && Numbered(n)
        ensures Leading(n) <= RevisionNumber(latest)
      {
        NumberedAtMost(n, latest);
      }
    }
  }

  /** A numbered name that is, or sorts before, a name not starting with a letter has a
      leading number no higher than the revision read off that name. */
  lemma NumberedAtMost(n: string, latest: string)
    requires Numbered(n) && latest != [] && !IsLetter(latest[0])
    requires n == latest || Less(n, latest)
    ensures Leading(n) <= RevisionNumber(latest)
  {
    NumberedKey(n);
    if n == latest {
      NumberedRevision(n);
    } else {
      FirstChunkOrder(n, latest);
      if IsDigit(latest[0]) {
        assert Key(latest)[0] == Number(RevisionNumber(latest));
      }
    }
  }

  /** `put` touches one file: the object directory gains the new name, the file holds the
      written record, and every other file of every object and root is as it was. */
  lemma WrittenFrame(disk: Disk, root: string, id: string, name: string, content: Record)
    requires id != "" && name != ""
    ensures var after := Written(disk, root, id, name, content);
            && Entries(after, root, id) == Entries(disk, root, id) + {name}
            && after.Keys == disk.Keys + {root}
            && after[root].Keys == (if root in disk then disk[root].Keys else {}) + {id}
            && after[root][id][name] == content
            && (forall n :: n in Entries(disk, root, id) && n != name ==>
                  after[root][id][n] == disk[root][id][n])
            && (forall r, k :: r in disk && k in disk[r] && (r, k) != (root, id) ==>
                  r in after && k in after[r] && after[r][k] == disk[r][k])
  {
  }

  lemma JsonNamesAdd(names: set<string>, name: string)
    requires IsJson(name)
    ensures JsonNames(names + {name}) == JsonNames(names) + {name}
  {
  }

  /** Round trip: unless the latest `.json` name starts with an ASCII letter, after an
      auto-numbered `put` `get` returns exactly the record `put` returned, because the new
      file's name sorts last. `StrayJsonShadowsPut` covers the other case. */
  lemma PutThenGet(disk: Disk, root: string, data: Record, id: string, uid: string)
    requires "rev" !in data && id != ""
    requires LatestNotLetter(disk, root, id)
    ensures var rev := NextRevision(disk, root, data, id);
            var record := Stamped(data, rev, uid);
            Current(Written(disk, root, id, FileName(rev, uid), record), root, id) == Some(record)
  {
    var rev := NextRevision(disk, root, data, id);
    var record := Stamped(data, rev, uid);
    var name := FileName(rev, uid);
    var after := Written(disk, root, id, name, record);
    WrittenFrame(disk, root, id, name, record);
    var found := JsonNames(Entries(disk, root, id));
    assert JsonNames(after[root][id].Keys) == found + {name} by {
      assert after[root][id].Keys == Entries(after, root, id);
      JsonNamesAdd(Entries(disk, root, id), name);
    }
    if found != {} {
      var latest := Latest(found);
      assert latest != [] by {
        assert IsJson(latest);
      }
      assert rev == Int(RevisionNumber(latest) + 1);
      NewRevisionSortsLast(latest, uid);
    }
    LatestAdded(found, name);
  }

  /** A directory stays well-named under a `put` whose revision is a non-negative
      integer, in particular under every auto-numbered `put`. */
  lemma PutKeepsWellNamed(disk: Disk, root: string, data: Record, id: string, uid: string)
    requires id != "" && WellNamed(disk, root, id)
    requires NextRevision(disk, root, data, id).Int? && NextRevision(disk, root, data, id).i >= 0
    ensures var rev := NextRevision(disk, root, data, id);
            WellNamed(Written(disk, root, id, FileName(rev, uid), Stamped(data, rev, uid)), root, id)
  {
    var rev := NextRevision(disk, root, data, id);
    FileNameNumbered(rev.i, uid);
    WrittenFrame(disk, root, id, FileName(rev, uid), Stamped(data, rev, uid));
  }

  /** A `.json` file whose name starts with an ASCII letter (say "notes.json") sorts after every
      revision file, so while one is the latest, an auto-numbered `put` writes its new
      revision and `get` goes on returning the record of that file. */
  lemma StrayJsonShadowsPut(disk: Disk, root: string, data: Record, id: string, uid: string)
    requires "rev" !in data && id != ""
    requires JsonNames(Entries(disk, root, id)) != {}
    requires var stray := Latest(JsonNames(Entries(disk, root, id))); stray != [] && IsLetter(stray[0])
    ensures var rev := NextRevision(disk, root, data, id);
            Current(Written(disk, root, id, FileName(rev, uid), Stamped(data, rev, uid)), root, id)
              == Current(disk, root, id)
  {
    var json := JsonNames(Entries(disk, root, id));
    var stray := Latest(json);
    var rev := NextRevision(disk, root, data, id);
    var name := FileName(rev, uid);
    assert Less(name, stray) by {
      AutoRevisionPositive(disk, root, data, id);
      FileNameNumbered(rev.i, uid);
      NumberedBeforeLetter(name, stray);
    }
    var after := Written(disk, root, id, name, Stamped(data, rev, uid));
    var files := after[root][id];
    assert files.Keys == Entries(disk, root, id) + {name} && files[stray] == disk[root][id][stray] by {
      LessIrreflexive(name);
      WrittenFrame(disk, root, id, name, Stamped(data, rev, uid));
    }
    assert Latest(JsonNames(files.Keys)) == stray by {
      var json' := JsonNames(files.Keys);
      assert json' <= json + {name};
      assert IsLatest(stray, json');
      LatestUnique(json');
    }
  }
}
