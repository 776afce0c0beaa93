/** The revisioned object store. Every object is a directory under the store's root named
    by the object's id; every revision of it is a file `<rev>-<uid>.json` in that directory
    holding the whole record. The latest revision is the file that sorts last. */
module Store {

  import opened Results
  import opened JsValues
  import opened Numerals
  import opened Collation
  import opened RevisionFiles

  /** One object directory: file name to the record the file holds. */
  type Files = map<string, Record>

  /** A store root: object id to its directory. A directory entry never has an empty
      name. */
  type Objects = o: map<string, Files> | "" !in o
    witness map[]

  /** The file system the store sees: every existing root directory by its path. */
  type Disk = map<string, Objects>

  /** `join(dir, name)` for a single file or directory name. */
  function Join(dir: string, name: string): string
  {
    dir + "/" + name
  }

  /** The entries of `join(root, id)` when that directory exists (`join(root, "")` is the
      root itself). */
  function Listing(disk: Disk, root: string, id: string): Option<set<string>>
  {
    if root !in disk then None
    else if id == "" then Some(disk[root].Keys)
    else if id in disk[root] then Some(disk[root][id].Keys)
    else None
  }

  function Entries(disk: Disk, root: string, id: string): set<string>
  {
    match Listing(disk, root, id)
    case None => {}
    case Some(names) => names
  }

  /** What `rev(id)` returns for a directory listing: 0 when there is no `.json` file,
      otherwise the revision read off the latest `.json` name. */
  function RevisionOf(names: set<string>): int
  {
    var json := JsonNames(names);
    if json == {} then 0 else RevisionNumber(Latest(json))
  }

  /** What `get(id)` returns for a non-empty id: nothing when the directory is missing or
      holds no `.json` file, otherwise the record in the latest `.json` file. */
  function Current(disk: Disk, root: string, id: string): Option<Record>
  {
    if root !in disk || id !in disk[root] then None else Newest(disk[root][id])
  }

  /** The record in the latest `.json` file of a directory, if it has one. */
  function Newest(files: Files): Option<Record>
  {
    var json := JsonNames(files.Keys);
    if json == {} then None else Some(files[Latest(json)])
  }

  /** The error `put(data)` throws before it touches the disk, if any. */
  function PutRejection(rootPath: Option<string>, data: Option<Record>): Option<Error>
  {
    if data.None? then Some(Raised("data is required"))
    else if "id" !in data.value || !Truthy(data.value["id"]) then Some(Raised("data.id is required"))
    else if rootPath.None? then Some(NotAString("rootPath"))
    else if !data.value["id"].Str? then Some(NotAString("data.id"))
    else None
  }

  /** The revision `put` stores: one more than `data.rev` when `data` has its own `rev`,
      otherwise one more than `rev(id)` when the object's directory exists, otherwise 1. */
  function NextRevision(disk: Disk, root: string, data: Record, id: string): Value
  {
    if "rev" in data then PlusOne(data["rev"])
    else if Listing(disk, root, id).Some? then Int(RevisionOf(Entries(disk, root, id)) + 1)
    else Int(1)
  }

  /** `{ ...data, rev, uid }`. */
  function Stamped(data: Record, rev: Value, uid: string): (r: Record)
    ensures r.Keys == data.Keys + {"rev", "uid"}
    ensures r["rev"] == rev && r["uid"] == Str(uid)
    ensures forall k :: k in data && k != "rev" && k != "uid" ==> r[k] == data[k]
  {
    data["rev" := rev]["uid" := Str(uid)]
  }

  /** The disk after writing `content` to the file `name` of object `id`, creating the
      root and the object directory when they are missing. */
  function Written(disk: Disk, root: string, id: string, name: string, content: Record): Disk
    requires id != "" && name != ""
  {
    var objects := if root in disk then disk[root] else map[];
    var files := if id in objects then objects[id] else map[];
    disk[root := objects[id := files[name := content]]]
  }

  /** The `.json` files `clean` deletes from a directory: all but the last in sorted
      order, in sorted order. */
  function Stale(files: Files): seq<string>
  {
    var sorted := AlphanumSort(JsonNames(files.Keys));
    if sorted == [] then [] else sorted[..|sorted| - 1]
  }

  function Elements(names: seq<string>): set<string>
  {
    set n | n in names
  }

  /** A directory after `clean`. */
  function Compacted(files: Files): Files
  {
    files - Elements(Stale(files))
  }

  function Paths(dir: string, names: seq<string>): (paths: seq<string>)
    ensures |paths| == |names|
    ensures forall i :: 0 <= i < |names| ==> paths[i] == Join(dir, names[i])
  {
    seq(|names|, i requires 0 <= i < |names| => Join(dir, names[i]))
  }

  /** `clean` of one object: the objects afterwards and the paths it deleted. */
  function CleanObject(objects: Objects, root: string, id: string): (Objects, seq<string>)
  {
    if id in objects then (objects[id := Compacted(objects[id])], Paths(Join(root, id), Stale(objects[id])))
    else (objects, [])
  }

  /** `clean` of the objects `ids` names, one after the other. */
  function CleanObjects(objects: Objects, root: string, ids: seq<string>): (Objects, seq<string>)
    decreases |ids|
  {
    if ids == [] then (objects, [])
    else
      var before := CleanObjects(objects, root, ids[..|ids| - 1]);
      var last := CleanObject(before.0, root, ids[|ids| - 1]);
      (last.0, before.1 + last.1)
  }

  /** Setting a key twice keeps the second value. */
  lemma UpdateTwice<K, V>(m: map<K, V>, k: K, a: V, b: V)
    ensures m[k := a][k := b] == m[k := b]
  {
  }

  /** Cleaning one more id of the list cleans that object after the others. */
  lemma CleanObjectsNext(objects: Objects, root: string, ids: seq<string>, i: nat)
    requires i < |ids|
    ensures var before := CleanObjects(objects, root, ids[..i]);
            var next := CleanObject(before.0, root, ids[i]);
            CleanObjects(objects, root, ids[..i + 1]) == (next.0, before.1 + next.1)
  {
    assert ids[..i + 1][..i] == ids[..i];
  }

  predicate IsHidden(name: string)
  {
    name != [] && name[0] == '.'
  }

  /** The ids `allSync` lists: the entries of the root that do not start with '.'. */
  function VisibleIds(disk: Disk, rootPath: Option<string>): set<string>
  {
    if rootPath.None? || rootPath.value !in disk then {}
    else set e | e in disk[rootPath.value] && !IsHidden(e)
  }

  class Storage {
    /** The configured root directory; `None` until `SetPath`. */
    var rootPath: Option<string>
    /** The file system under the store's roots. */
    var fs: Disk

    /** `new Storage()` without a `db` setting, over the file system as found. */
    constructor (disk: Disk)
      ensures rootPath.None? && fs == disk
    {
      rootPath := None;
      fs := disk;
    }

    /** `new Storage(configuration)`: a truthy `configuration.db` is passed to `setPath`. */
    static method Open(configuration: Option<Record>, disk: Disk) returns (r: Result<Storage>)
      ensures configuration.None? || "db" !in configuration.value || !Truthy(configuration.value["db"]) ==>
                r.Success? && fresh(r.value) && r.value.rootPath.None? && r.value.fs == disk
      ensures configuration.Some? && "db" in configuration.value && Truthy(configuration.value["db"]) ==>
                var db := configuration.value["db"];
                if db.Str? then
                  r.Success? && fresh(r.value) && r.value.rootPath == Some(db.s) &&
                  r.value.fs == (if db.s in disk then disk else disk[db.s := map[]])
                else
                  r == Failure(NotAString("location"))
    {
      var s := new Storage(disk);
      if configuration.Some? && "db" in configuration.value && Truthy(configuration.value["db"]) {
        var db := configuration.value["db"];
        if !db.Str? {
          return Failure(NotAString("location"));
        }
        s.SetPath(db.s);
      }
      r := Success(s);
    }

    /** `setPath(location)`: remember the root and create it when it is missing; whatever
        is already there stays. */
    method SetPath(location: string)
      modifies this
      ensures rootPath == Some(location)
      ensures location in fs
      ensures fs == if location in old(fs) then old(fs) else old(fs)[location := map[]]
    {
      rootPath := Some(location);
      if location !in fs {
        fs := fs[location := map[]];
      }
    }

    /** `has(id)`: whether `join(root, id)` exists. */
    method Has(id: string) returns (r: Result<bool>)
      ensures rootPath.None? ==> r == Failure(NotAString("rootPath"))
      ensures rootPath.Some? ==> r == Success(Listing(fs, rootPath.value, id).Some?)
    {
      if rootPath.None? {
        return Failure(NotAString("rootPath"));
      }
      r := Success(Listing(fs, rootPath.value, id).Some?);
    }

    /** `rev(id)`: list the `.json` files, stand in "0-a.json" when there is none, sort,
        and read the revision off the last name. */
    method Rev(id: string) returns (r: Result<int>)
      ensures rootPath.None? ==> r == Failure(NotAString("rootPath"))
      ensures rootPath.Some? ==> r == Success(RevisionOf(Entries(fs, rootPath.value, id)))
    {
      if rootPath.None? {
        return Failure(NotAString("rootPath"));
      }
      var listing := Listing(fs, rootPath.value, id);
      var files: set<string> := {};
      if listing.Some? {
        files := JsonNames(listing.value);
      }
      var found := files;
      if files == {} {
        files := files + {"0-a.json"};
      }
      var sorted := AlphanumSort(files);
      var latestFile := sorted[|sorted| - 1];
      SortedLast(sorted, files);
      var revision := ParseInt(FirstField(latestFile, '-'));
      r := Success(if revision.None? then 1 else revision.value);
      if found == {} {
        LatestOfOne("0-a.json");
        BaseRevision();
      }
    }

    /** `allSync()`: the root's entries that do not start with '.', each once, in the
        order the listing gives them (any order). */
    method AllSync() returns (ids: seq<string>)
      ensures forall i, j :: 0 <= i < j < |ids| ==> ids[i] != ids[j]
      ensures forall e :: e in ids <==> e in VisibleIds(fs, rootPath)
    {
      ids := [];
      if rootPath.None? || rootPath.value !in fs {
        return;
      }
      var remaining := fs[rootPath.value].Keys;
      while remaining != {}
        invariant remaining <= fs[rootPath.value].Keys
        invariant forall i, j :: 0 <= i < j < |ids| ==> ids[i] != ids[j]
        invariant forall e :: e in ids ==> e !in remaining
        invariant forall e :: e in ids <==> e in VisibleIds(fs, rootPath) && e !in remaining
        decreases remaining
      {
        var entry :| entry in remaining;
        if !IsHidden(entry) {
          ids := ids + [entry];
        }
        remaining := remaining - {entry};
      }
    }

    /** `all()`: the asynchronous form of `allSync`, with the same filter. */
    method All() returns (ids: seq<string>)
      ensures forall i, j :: 0 <= i < j < |ids| ==> ids[i] != ids[j]
      ensures forall e :: e in ids <==> e in VisibleIds(fs, rootPath)
    {
      ids := AllSync();
    }

    /** `get(id)`: the record in the latest `.json` file of the object, `None` for `null`. */
    method Get(id: string) returns (r: Result<Option<Record>>)
      ensures id == "" ==> r == Failure(Raised("id is required"))
      ensures id != "" && rootPath.None? ==> r == Failure(NotAString("rootPath"))
      ensures id != "" && rootPath.Some? ==> r == Success(Current(fs, rootPath.value, id))
    {
      if id == "" {
        return Failure(Raised("id is required"));
      }
      var present := Has(id);
      if present.Failure? {
        return Failure(present.error);
      }
      if !present.value {
        return Success(None);
      }
      var directory := fs[rootPath.value][id];
      var files := JsonNames(directory.Keys);
      if files == {} {
        return Success(None);
      }
      var sorted := AlphanumSort(files);
      var latestFile := sorted[|sorted| - 1];
      SortedLast(sorted, files);
      r := Success(Some(directory[latestFile]));
    }

    /** Steps 2 to 5 of `put`: take `data.rev` when `data` has its own `rev`, else `rev(id)`
        when the object's directory exists, else 0; then add one. */
    method DecideRevision(d: Record, id: string, dataExists: bool) returns (rev: Value)
      requires rootPath.Some? && id != ""
      requires dataExists == (rootPath.value in fs && id in fs[rootPath.value])
      ensures rev == NextRevision(fs, rootPath.value, d, id)
    {
      var hasRevision := "rev" in d;
      rev := Int(0);
      if hasRevision {
        rev := d["rev"];
      } else if dataExists {
        var latest := Rev(id);
        rev := Int(latest.value);
      } else {
        rev := Int(0);
      }
      rev := PlusOne(rev);
    }

    /** Steps 2 to 7 of `put` for a validated `data` whose id is `id`: choose the
        revision, stamp the record, and write it to `<rev>-<uid>.json`. */
    method WriteRevision(d: Record, id: string, uid: string) returns (updated: Record)
      requires rootPath.Some? && id != ""
      modifies this`fs
      ensures var rev := NextRevision(old(fs), rootPath.value, d, id);
              && updated == Stamped(d, rev, uid)
              && fs == Written(old(fs), rootPath.value, id, FileName(rev, uid), updated)
    {
      var dataExists := rootPath.value in fs && id in fs[rootPath.value];
      var rev := DecideRevision(d, id, dataExists);
      updated := Stamped(d, rev, uid);
      var filename := FileName(rev, uid);
      assert filename != "" by {
        assert |filename| >= |".json"|;
      }
      WriteFile(rootPath.value, id, dataExists, filename, updated);
    }

    /** Steps 8 to 10 of `put`: create the object directory when it is missing, then
        write `content` to the file `name` in it. */
    method WriteFile(root: string, id: string, dataExists: bool, name: string, content: Record)
      requires id != "" && name != ""
      requires dataExists == (root in fs && id in fs[root])
      modifies this`fs
      ensures fs == Written(old(fs), root, id, name, content)
    {
      ghost var disk := fs;
      ghost var found: Objects := if root in disk then disk[root] else map[];
      var objects: Objects := if root in fs then fs[root] else map[];
      if !dataExists {
        objects := objects[id := map[]];
        fs := fs[root := objects];
      }
      var files := objects[id];
      assert files == if id in found then found[id] else map[];
      objects := objects[id := files[name := content]];
      assert objects == found[id := files[name := content]];
      fs := fs[root := objects];
      assert fs == disk[root := objects];
    }

    /** `put(data)` with `uid` as the freshly generated UUID: validate, then write the new
        revision. */
    method Put(data: Option<Record>, uid: string) returns (r: Result<Record>)
      modifies this`fs
      ensures PutRejection(rootPath, data).Some? ==>
                r == Failure(PutRejection(rootPath, data).value) && fs == old(fs)
      ensures PutRejection(rootPath, data).None? ==>
                var id := data.value["id"].s;
                var rev := NextRevision(old(fs), rootPath.value, data.value, id);
                r == Success(Stamped(data.value, rev, uid)) &&
                fs == Written(old(fs), rootPath.value, id, FileName(rev, uid), r.value)
    {
      if data.None? {
        return Failure(Raised("data is required"));
      }
      var d := data.value;
      if "id" !in d || !Truthy(d["id"]) {
        return Failure(Raised("data.id is required"));
      }
      if rootPath.None? {
        return Failure(NotAString("rootPath"));
      }
      if !d["id"].Str? {
        return Failure(NotAString("data.id"));
      }
      var updated := WriteRevision(d, d["id"].s, uid);
      r := Success(updated);
    }

    /** Step 5 of `clean`: unlink `names` from the object directory one after the other,
        collecting the deleted paths. Each name is a file of the directory, listed once:
        `unlinkSync` throws on a file that is not there. */
    method Unlink(root: string, objectId: string, names: seq<string>) returns (deleted: seq<string>)
      requires root in fs && objectId in fs[root]
      requires forall n :: n in names ==> n in fs[root][objectId]
      requires forall i, j :: 0 <= i < j < |names| ==> names[i] != names[j]
      modifies this`fs
      ensures fs == old(fs)[root := old(fs)[root][objectId := old(fs)[root][objectId] - Elements(names)]]
      ensures deleted == Paths(Join(root, objectId), names)
    {
      var disk, directory := fs, Join(root, objectId);
      var remaining := fs[root][objectId];
      deleted := [];
      var j := 0;
      assert remaining - Elements(names[..0]) == remaining;
      assert disk[root][objectId := remaining] == disk[root];
      assert disk[root := disk[root]] == disk;
      while j < |names|
        invariant 0 <= j <= |names|
        invariant remaining == disk[root][objectId] - Elements(names[..j])
        invariant fs == disk[root := disk[root][objectId := remaining]]
        invariant deleted == Paths(directory, names[..j])
      {
        var fullPath := Join(directory, names[j]);
        assert Elements(names[..j + 1]) == Elements(names[..j]) + {names[j]} by {
          assert names[..j + 1] == names[..j] + [names[j]];
        }
        remaining := remaining - {names[j]};
        fs := disk[root := disk[root][objectId := remaining]];
        deleted := deleted + [fullPath];
        assert Paths(directory, names[..j + 1]) == Paths(directory, names[..j]) + [fullPath];
        j := j + 1;
      }
      assert names[..j] == names;
    }

    /** Steps 3 to 5 of `clean` for one existing object directory: sort its `.json` files,
        set the last one aside, and delete the others in order, collecting their paths. */
    method CleanDirectory(root: string, objectId: string) returns (deleted: seq<string>)
      requires root in fs && objectId in fs[root]
      modifies this`fs
      ensures fs == old(fs)[root := CleanObject(old(fs)[root], root, objectId).0]
      ensures deleted == CleanObject(old(fs)[root], root, objectId).1
    {
      var before := fs[root][objectId];
      var sorted := AlphanumSort(JsonNames(before.Keys));
      var files := sorted;
      if files != [] {
        files := files[..|files| - 1];
      }
      assert files == Stale(before);
      forall i, j | 0 <= i < j < |files|
        ensures files[i] != files[j]
      {
        assert Less(sorted[i], sorted[j]);
        LessIrreflexive(files[i]);
      }
      deleted := Unlink(root, objectId, files);
    }

    /** Steps 2 to 5 of `clean`: clean the object directories `ids` names, one after the
        other, collecting the deleted paths. */
    method CleanEach(root: string, ids: seq<string>) returns (deletedFiles: seq<string>)
      requires root in fs
      modifies this`fs
      ensures fs == old(fs)[root := CleanObjects(old(fs)[root], root, ids).0]
      ensures deletedFiles == CleanObjects(old(fs)[root], root, ids).1
    {
      var disk, objects := fs, fs[root];
      deletedFiles := [];
      var i := 0;
      assert disk[root := objects] == disk;
      while i < |ids|
        invariant 0 <= i <= |ids|
        invariant objects == CleanObjects(disk[root], root, ids[..i]).0
        invariant deletedFiles == CleanObjects(disk[root], root, ids[..i]).1
        invariant fs == disk[root := objects]
      {
        var objectId := ids[i];
        CleanObjectsNext(disk[root], root, ids, i);
        var deleted: seq<string> := [];
        var cleaned := CleanObject(objects, root, objectId).0;
        if objectId in objects {
          deleted := CleanDirectory(root, objectId);
          UpdateTwice(disk, root, objects, cleaned);
        }
        objects := cleaned;
        deletedFiles := deletedFiles + deleted;
        i := i + 1;
      }
      assert ids[..i] == ids;
    }

    /** `clean(id)`: for the object `id`, or for every id `allSync` lists when `id` is
        empty, delete every `.json` file but the last in sorted order, and return the
        deleted paths. */
    method Clean(id: string) returns (r: Result<seq<string>>)
      modifies this`fs
      ensures rootPath.None? ==> fs == old(fs)
      ensures rootPath.None? ==> r == if id == "" then Success([]) else Failure(NotAString("rootPath"))
      ensures rootPath.Some? && rootPath.value !in old(fs) ==> r == Success([]) && fs == old(fs)
      ensures rootPath.Some? && rootPath.value in old(fs) && id != "" ==>
                var after := CleanObjects(old(fs)[rootPath.value], rootPath.value, [id]);
                r == Success(after.1) && fs == old(fs)[rootPath.value := after.0]
      ensures rootPath.Some? && rootPath.value in old(fs) && id == "" ==>
                exists ids: seq<string> ::
                  && (forall i, j :: 0 <= i < j < |ids| ==> ids[i] != ids[j])
                  && (forall e :: e in ids <==> e in VisibleIds(old(fs), rootPath))
                  && var after := CleanObjects(old(fs)[rootPath.value], rootPath.value, ids);
                     r == Success(after.1) && fs == old(fs)[rootPath.value := after.0]
    {
      if rootPath.None? {
        // `allSync` lists nothing without a root; `join` throws on a given id
        if id != "" {
          return Failure(NotAString("rootPath"));
        }
        return Success([]);
      }
      var ids: seq<string>;
      if id != "" {
        ids := [id];
      } else {
        ids := AllSync();
      }
      var root := rootPath.value;
      if root !in fs {
        return Success([]);
      }
      var deletedFiles := CleanEach(root, ids);
      r := Success(deletedFiles);
    }
  }
}
