/** Values that cross the storage and repository interfaces: bytes, headers,
    listing entries (`storage.FileInfo`) and the results of `Read`/`Get`,
    `Write`/`Put` and `List`. */
module Common {

  type byte = b: int | 0 <= b < 256
  type Bytes = seq<byte>

  /** A modification timestamp. It is only copied around, never inspected. */
  type Time = int

  /** `http.Header`: a header name mapped to its values. */
  type Headers = map<string, seq<string>>

  datatype Option<T> = None | Some(value: T)

  /** The failures the core reports, by cause. */
  datatype Error =
    | NoSuchFile           // the path names nothing in storage
    | IsADirectory         // a file operation reached a directory
    | NotADirectory        // a directory operation, or an ancestor, is a file
    | NotInAnyMember       // every readable member of a group missed
    | NotInAnyMirror       // the cache missed and no mirror answered 200
    | ReadOnlyRepository   // a proxy refuses every write
    | NoRouteTarget        // a group's route names none of its members

  /** The four results of `Read` and `Get`: data, status and headers, or a
      status with an error. */
  datatype Reply =
    | Hit(data: Bytes, status: int, headers: Headers)
    | Miss(status: int, error: Error)

  /** The error result of `Write` and `Put`. */
  datatype Outcome = Done | Failed(error: Error)

  /** `storage.FileInfo`: one entry of a directory listing. */
  datatype FileInfo = FileInfo(name: string, size: int, modTime: Time, isDir: bool)

  /** The result of `List`. */
  datatype Listing = Listed(entries: seq<FileInfo>) | ListFailed(error: Error)

  /** The names of a listing's entries, in order. */
  function Names(entries: seq<FileInfo>): (r: seq<string>)
    ensures |r| == |entries|
    ensures forall i :: 0 <= i < |entries| ==> r[i] == entries[i].name
  {
    seq(|entries|, i requires 0 <= i < |entries| => entries[i].name)
  }
}
