/** The detailed listing of a bucket prefix (GetListWithDetail): one row per directory
    (for a listing that is not recursive) and one row per object other than the prefix
    itself, numbered in order. */
module BucketListing {
  import opened Wrappers
  import opened GoStrings
  import opened ObjectStore

  /** One row of the listing. A directory row has no size, type or modification time
      (the empty string and the zero stamp 0). */
  datatype ListResult = ListResult(
    id: int, name: string, size: string, path: string, fileType: string, isDir: bool, modified: int)

  function DirResult(id: int, commonPrefix: string): ListResult
  {
    ListResult(id, Base(TrimSuffix(commonPrefix, "/")), "", commonPrefix, "", true, 0)
  }

  function ObjectResult(id: int, o: ObjectInfo): ListResult
  {
    ListResult(id, Base(o.key), IntToString(o.size), Dir(o.key) + "/", Ext(o.key), false, o.lastModified)
  }

  /** The objects of a listing other than the one whose key is the prefix, in order. */
  function ObjectsBelow(objects: seq<ObjectInfo>, prefix: string): seq<ObjectInfo>
  {
    if objects == [] then []
    else
      var o := objects[|objects| - 1];
      ObjectsBelow(objects[..|objects| - 1], prefix) + if o.key != prefix then [o] else []
  }

  lemma ObjectsBelowPrefix(objects: seq<ObjectInfo>, prefix: string, j: nat)
    requires j < |objects|
    ensures ObjectsBelow(objects[..j + 1], prefix) ==
      ObjectsBelow(objects[..j], prefix) + if objects[j].key != prefix then [objects[j]] else []
  {
    assert objects[..j + 1][..j] == objects[..j];
  }

  /** The directory rows, numbered from 0. */
  function DirRows(commonPrefixes: seq<string>): seq<ListResult>
  {
    seq(|commonPrefixes|, k requires 0 <= k < |commonPrefixes| => DirResult(k, commonPrefixes[k]))
  }

  /** The object rows, numbered from `first`. */
  function ObjectRows(objects: seq<ObjectInfo>, first: int): seq<ListResult>
  {
    seq(|objects|, k requires 0 <= k < |objects| => ObjectResult(first + k, objects[k]))
  }

  /** The rows of a listing: the directory rows when the listing is not recursive, then
      the rows of the objects below the prefix, numbered on. */
  function Rows(l: Listing, prefix: string, recursive: bool): seq<ListResult>
  {
    var dirs := if recursive then [] else DirRows(l.commonPrefixes);
    dirs + ObjectRows(ObjectsBelow(l.contents, prefix), |dirs|)
  }

  /** GetListWithDetail: a listing with the delimiter "/" exactly when it is not
      recursive; its error is returned as is. */
  function GetListWithDetailOf(store: Bucket, prefix: string, recursive: bool): Result<seq<ListResult>>
  {
    match GetList(store, prefix, !recursive)
    case Failure(e) => Failure(e)
    case Success(l) => Success(Rows(l, prefix, recursive))
  }

  /** GetListWithDetail: the listing, then its two loops numbering the rows with a
      running count. */
  method GetListWithDetail(store: Bucket, prefix: string, recursive: bool) returns (r: Result<seq<ListResult>>)
    ensures r == GetListWithDetailOf(store, prefix, recursive)
  {
    var delimiter := "";
    if !recursive {
      delimiter := "/";
    }
    var response := GetList(store, prefix, delimiter != "");
    if response.Failure? {
      return Failure(response.error);
    }
    var result: seq<ListResult> := [];
    if delimiter != "" {
      result := AppendDirRows(response.value.commonPrefixes);
    }
    result := AppendObjectRows(result, response.value.contents, prefix);
    return Success(result);
  }

  /** The first loop: a row per common prefix. */
  method AppendDirRows(commonPrefixes: seq<string>) returns (result: seq<ListResult>)
    ensures result == DirRows(commonPrefixes)
  {
    result := [];
    var count := 0;
    for i := 0 to |commonPrefixes|
      invariant count == |result| == i
      invariant forall k | 0 <= k < i :: result[k] == DirResult(k, commonPrefixes[k])
    {
      var cp := commonPrefixes[i];
      result := result + [ListResult(count, Base(TrimSuffix(cp, "/")), "", cp, "", true, 0)];
      count := count + 1;
    }
  }

  /** The second loop: a row per object whose key is not the prefix, numbered on from
      the rows so far. */
  method AppendObjectRows(rows: seq<ListResult>, contents: seq<ObjectInfo>, prefix: string) returns (result: seq<ListResult>)
    ensures result == rows + ObjectRows(ObjectsBelow(contents, prefix), |rows|)
  {
    result := rows;
    var count := |rows|;
    for j := 0 to |contents|
      invariant count == |result| == |rows| + |ObjectsBelow(contents[..j], prefix)|
      invariant result[..|rows|] == rows
      invariant forall k | 0 <= k < |ObjectsBelow(contents[..j], prefix)| ::
        result[|rows| + k] == ObjectResult(|rows| + k, ObjectsBelow(contents[..j], prefix)[k])
    {
      var obj := contents[j];
      ObjectsBelowPrefix(contents, prefix, j);
      if obj.key != prefix {
        result := result + [ListResult(count, Base(obj.key), IntToString(obj.size), Dir(obj.key) + "/",
          Ext(obj.key), false, obj.lastModified)];
        count := count + 1;
      }
    }
    assert contents[..|contents|] == contents;
    assert result == result[..|rows|] + result[|rows|..];
  }

  /** The objects below the prefix are those of the listing whose key is not the
      prefix. */
  lemma {:induction false} ObjectsBelowMembers(objects: seq<ObjectInfo>, prefix: string, o: ObjectInfo)
    ensures o in ObjectsBelow(objects, prefix) <==> o in objects && o.key != prefix
    decreases |objects|
  {
    if objects != [] {
      var init := objects[..|objects| - 1];
      ObjectsBelowMembers(init, prefix, o);
      assert objects == init + [objects[|objects| - 1]];
    }
  }

  /** The objects below the prefix keep the listing's order. */
  lemma {:induction false} ObjectsBelowInOrder(a: seq<ObjectInfo>, b: seq<ObjectInfo>, prefix: string)
    ensures ObjectsBelow(a + b, prefix) == ObjectsBelow(a, prefix) + ObjectsBelow(b, prefix)
    decreases |b|
  {
    if b == [] {
      assert a + b == a;
    } else {
      var init := b[..|b| - 1];
      assert (a + b)[..|a + b| - 1] == a + init;
      ObjectsBelowInOrder(a, init, prefix);
    }
  }

  /** The rows are numbered 0, 1, ... in order; the first rows, one per common prefix
      and only when the listing is not recursive, are the directories, named by the
      last element of the prefix and with the prefix as path; the others, one per
      object whose key is not the prefix, are files with the object's name, size,
      directory (with a trailing '/'), extension and modification time. */
  lemma RowsDescribeListing(l: Listing, prefix: string, recursive: bool)
    ensures var rows := Rows(l, prefix, recursive);
      var n := if recursive then 0 else |l.commonPrefixes|;
      var objects := ObjectsBelow(l.contents, prefix);
      |rows| == n + |objects| &&
      (forall k | 0 <= k < |rows| :: rows[k].id == k && (rows[k].isDir <==> k < n)) &&
      (forall k | 0 <= k < n ::
        rows[k].path == l.commonPrefixes[k] && rows[k].name == Base(TrimSuffix(l.commonPrefixes[k], "/"))) &&
      (forall k | 0 <= k < |objects| ::
        var o := objects[k]; var row := rows[n + k];
        row.name == Base(o.key) && row.size == IntToString(o.size) && row.path == Dir(o.key) + "/" &&
        row.fileType == Ext(o.key) && row.modified == o.lastModified)
  {
    var dirs := if recursive then [] else DirRows(l.commonPrefixes);
    var objects := ObjectsBelow(l.contents, prefix);
    RowsJoined(dirs, objects);
    forall k | 0 <= k < |dirs|
      ensures dirs[k] == DirResult(k, l.commonPrefixes[k])
    {
    }
  }

  /** Directory rows numbered from 0 followed by the object rows numbered on: each row
      keeps its place and its number, and the directories are the first ones. */
  lemma RowsJoined(dirs: seq<ListResult>, objects: seq<ObjectInfo>)
    requires forall k | 0 <= k < |dirs| :: dirs[k].id == k && dirs[k].isDir
    ensures var rows := dirs + ObjectRows(objects, |dirs|);
      |rows| == |dirs| + |objects| &&
      (forall k | 0 <= k < |rows| :: rows[k].id == k && (rows[k].isDir <==> k < |dirs|)) &&
      (forall k | 0 <= k < |dirs| :: rows[k] == dirs[k]) &&
      (forall k | 0 <= k < |objects| :: rows[|dirs| + k] == ObjectResult(|dirs| + k, objects[k]))
  {
    var tail := ObjectRows(objects, |dirs|);
    var rows := dirs + tail;
    forall k | 0 <= k < |rows|
      ensures rows[k].id == k && (rows[k].isDir <==> k < |dirs|)
    {
      if k < |dirs| {
        assert rows[k] == dirs[k];
      } else {
        assert rows[k] == tail[k - |dirs|];
      }
    }
    forall k | 0 <= k < |objects|
      ensures rows[|dirs| + k] == ObjectResult(|dirs| + k, objects[k])
    {
      assert rows[|dirs| + k] == tail[k];
    }
  }

  /** The listing fails exactly when the store cannot list the prefix with the
      delimiter the recursion flag asks for. */
  lemma ListingFails(store: Bucket, prefix: string, recursive: bool)
    ensures GetListWithDetailOf(store, prefix, recursive).Failure? <==> Query(prefix, !recursive) !in store.listings
    ensures GetListWithDetailOf(store, prefix, recursive).Success? ==>
      GetListWithDetailOf(store, prefix, recursive).value == Rows(store.listings[Query(prefix, !recursive)], prefix, recursive)
  {
  }
}
