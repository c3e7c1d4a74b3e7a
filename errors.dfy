/**
 * The exceptions of the command handler that this model represents, and `str(e)`
 * of each: the text that ends up after the failure prefix in the issue comment.
 */
module Errors {

  datatype Error =
    | Unparsable(reason: string)   // `json.loads` refused the issue body; `reason` is the decoder's own text
    | MissingKey(key: string)      // `command["content"]` on an object without that key (KeyError)
    | PathIsNone                   // `Path(None)` in `ensure_dir` (TypeError)
    | ContentIsNone                // `None.encode()` for a JSON null content (AttributeError)
    | AlreadyExists(path: string)  // create on a path that already has a sha
    | NotFound(path: string)       // delete on a path without a sha
    | Unsupported(action: string)  // any action other than create, update and delete

  /** `str(e)`; the texts of the two built-in type errors are CPython 3.12's. */
  function Text(e: Error): string
  {
    match e
    case Unparsable(reason) => reason
    case MissingKey(key) => "'" + key + "'"
    case PathIsNone => "argument should be a str or an os.PathLike object where __fspath__ returns a str, not 'NoneType'"
    case ContentIsNone => "'NoneType' object has no attribute 'encode'"
    case AlreadyExists(path) => "File already exists: " + path + " (use action: update)"
    case NotFound(path) => "File not found: " + path
    case Unsupported(action) => "Unsupported action: " + action
  }
}
