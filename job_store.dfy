/**
 * The filesystem job queue shared by the web front door and the worker:
 * three directories, each a map from file name to file content.
 */
module JobStore {
  import opened Wrappers
  import opened Exceptions

  /** A file's content: the bytes of an upload, or a JSON array of strings as the worker writes it. */
  datatype Content = Blob(data: seq<bv8>) | Json(items: seq<string>)

  /** The three job directories as values. */
  datatype Dirs = Dirs(uploads: map<string, Content>, outputs: map<string, Content>, errors: map<string, Content>)

  /** The directories on disk, which the front door and the worker change in place. */
  class JobDirectories {
    var uploads: map<string, Content>
    var outputs: map<string, Content>
    var errors: map<string, Content>

    constructor (d: Dirs)
      ensures State() == d
    {
      uploads, outputs, errors := d.uploads, d.outputs, d.errors;
    }

    function State(): Dirs
      reads this
    {
      Dirs(uploads, outputs, errors)
    }
  }

  /** `listing` is what `os.listdir` returns for `dir`: every name once, in some order. */
  ghost predicate Lists(listing: seq<string>, dir: map<string, Content>) {
    (forall i, j :: 0 <= i < j < |listing| ==> listing[i] != listing[j])
    && (forall n :: n in listing <==> n in dir)
  }

  /** `json.load` on a file the worker may have written. */
  function LoadJson(c: Content): (r: Result<seq<string>, Exception>)
    ensures c.Json? ==> r == Success(c.items)
    ensures c.Blob? ==> r.Failure? && r.error.JsonDecodeError?
  {
    match c
    case Json(items) => Success(items)
    case Blob(_) => Failure(JsonDecodeError("Expecting value"))
  }
}
