/** The object store the parsers read from (an S3 bucket or a filestore), as values:
    what a key holds, what a listing returns, what a directory read returns. */
module ObjectStore {
  import opened Wrappers
  import opened GoStrings

  /** An object's content as a line scanner delivers it: the lines it yields, and whether
      it stopped on a read error rather than at the end of the content. */
  datatype Text = Text(lines: seq<Line>, scanFailed: bool)

  /** One object of a listing: its key, size and modification time (an opaque stamp). */
  datatype ObjectInfo = ObjectInfo(key: string, size: int, lastModified: int)

  /** A listing: the common prefixes (the "directories", present only for a listing with
      a delimiter) and the objects, each in the order the store returns them. */
  datatype Listing = Listing(commonPrefixes: seq<string>, contents: seq<ObjectInfo>)

  datatype Query = Query(prefix: string, delimited: bool)

  /** One entry of a filestore directory read: its directory and its name. */
  datatype DirEntry = DirEntry(path: string, name: string)

  /** A bucket: a missing key, listing or directory stands for the store's error. */
  datatype Bucket = Bucket(
    objects: map<string, Text>,
    listings: map<Query, Listing>,
    dirs: map<string, seq<DirEntry>>)

  function GetObject(b: Bucket, key: string): (r: Result<Text>)
    ensures r.Success? <==> key in b.objects
    ensures r.Success? ==> r.value == b.objects[key]
  {
    if key in b.objects then Success(b.objects[key]) else Failure(Err("object not found: " + key))
  }

  function GetList(b: Bucket, prefix: string, delimited: bool): (r: Result<Listing>)
    ensures r.Success? <==> Query(prefix, delimited) in b.listings
    ensures r.Success? ==> r.value == b.listings[Query(prefix, delimited)]
  {
    var q := Query(prefix, delimited);
    if q in b.listings then Success(b.listings[q]) else Failure(Err("listing failed: " + prefix))
  }

  function GetDir(b: Bucket, prefix: string): (r: Result<seq<DirEntry>>)
    ensures r.Success? <==> prefix in b.dirs
    ensures r.Success? ==> r.value == b.dirs[prefix]
  {
    if prefix in b.dirs then Success(b.dirs[prefix]) else Failure(Err("directory read failed: " + prefix))
  }
}
