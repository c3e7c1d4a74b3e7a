/**
 * The repository contents as the command handler sees them through the contents
 * API: a flat map from path to content, where "the path has a sha" means "the path
 * is a key", and the log of writes (PUT and DELETE requests) the handler sends.
 */
module Store {
  import opened Options
  import opened Errors
  import Paths

  /** The revision token of a stored file; content-addressed, as a blob sha is. */
  datatype Sha = Sha(blob: string)

  /** One write sent to the contents API, with its JSON payload. */
  datatype Request =
    | Put(path: string, content: string, message: string, sha: Option<Sha>)
    | Delete(path: string, message: string, token: Sha)

  /** The remote repository: its files, and every write sent to it so far. */
  datatype State = State(files: map<string, string>, log: seq<Request>)

  /** The state after an operation, and the exception it raised, if any. */
  datatype Step = Step(state: State, error: Option<Error>)

  const PlaceholderContent := "placeholder"

  /** What `get_sha` answers: the token of the stored file, or None on a 404. */
  function ShaAt(files: map<string, string>, path: string): (r: Option<Sha>)
    ensures r.Some? <==> path in files
  {
    if path in files then Some(Sha(files[path])) else None
  }

  /** `message or fallback`: an empty or missing message gives way to the fallback. */
  function CommitMessage(message: Option<string>, fallback: string): (r: string)
    ensures r == fallback || (message.Some? && r == message.value)
    ensures fallback != "" ==> r != ""
  {
    if message.Some? && message.value != "" then message.value else fallback
  }

  function MarkerRequest(p: string): Request
  {
    Put(p, PlaceholderContent, "chore: create folder placeholder for " + p, None)
  }

  /** One round of the loop in `ensure_dir`: write the marker `p` when it is absent. */
  function Mark(s: State, p: string): State
  {
    if p in s.files then s
    else State(s.files[p := PlaceholderContent], s.log + [MarkerRequest(p)])
  }

  /** The loop in `ensure_dir` over the markers `ps`, in order, each checked against the store as it is then. */
  function MarkAll(s: State, ps: seq<string>): State
  {
    if ps == [] then s else Mark(MarkAll(s, ps[..|ps| - 1]), ps[|ps| - 1])
  }

  /** The store after `ensure_dir(path)`. */
  function AfterEnsureDir(s: State, path: string): State
  {
    MarkAll(s, Paths.PlaceholderPaths(path))
  }

  /** Reference definition: one marker write for each of `ps` that is absent from `files`, in order. */
  function MissingMarkers(files: map<string, string>, ps: seq<string>): seq<Request>
  {
    if ps == [] then []
    else
      var last := ps[|ps| - 1];
      MissingMarkers(files, ps[..|ps| - 1]) + (if last in files then [] else [MarkerRequest(last)])
  }

  /**
   * `create_or_update_file(path, content, message, overwrite)`: `ensure_dir` first,
   * then the sha check, then one PUT that carries the sha when there is one.
   */
  function Write(s: State, path: Option<string>, content: Option<string>, message: Option<string>,
                 overwrite: bool): (r: Step)
    ensures |s.log| <= |r.state.log| && r.state.log[..|s.log|] == s.log
    ensures r.error.None? ==>
              path.Some? && content.Some? && path.value in r.state.files && r.state.files[path.value] == content.value
  {
    match path
    case None => Step(s, Some(PathIsNone))
    case Some(p) =>
      var d := AfterEnsureDir(s, p);
      EnsureDirRequests(s, p);
      match content
      case None => Step(d, Some(ContentIsNone))
      case Some(c) =>
        var sha := ShaAt(d.files, p);
        if sha.Some? && !overwrite then Step(d, Some(AlreadyExists(p)))
        else Step(State(d.files[p := c], d.log + [Put(p, c, CommitMessage(message, "update: " + p), sha)]), None)
  }

  /** `delete_file(path, message)`: a DELETE carrying the sha, or "not found" without one. */
  function Remove(s: State, path: string, message: Option<string>): (r: Step)
    ensures r.error.None? <==> path in s.files
    ensures path !in r.state.files
    ensures |s.log| <= |r.state.log| && r.state.log[..|s.log|] == s.log
  {
    match ShaAt(s.files, path)
    case None => Step(s, Some(NotFound(path)))
    case Some(sha) =>
      Step(State(s.files - {path}, s.log + [Delete(path, CommitMessage(message, "delete: " + path), sha)]), None)
  }

  // ---------------------------------------------------------------------------
  // The marker loop

  lemma {:induction false} MarkAllKeeps(s: State, ps: seq<string>)
    ensures forall k :: k in s.files ==> k in MarkAll(s, ps).files && MarkAll(s, ps).files[k] == s.files[k]
  {
    if ps != [] {
      MarkAllKeeps(s, ps[..|ps| - 1]);
    }
  }

  lemma {:induction false} MarkAllKeys(s: State, ps: seq<string>)
    ensures MarkAll(s, ps).files.Keys == s.files.Keys + set p | p in ps
    ensures forall k :: k in MarkAll(s, ps).files && k !in s.files ==> MarkAll(s, ps).files[k] == PlaceholderContent
  {
    if ps != [] {
      var init := ps[..|ps| - 1];
      MarkAllKeys(s, init);
      assert ps == init + [ps[|ps| - 1]];
      assert (set p | p in ps) == (set p | p in init) + {ps[|ps| - 1]};
    }
  }

  lemma {:induction false} MarkAllLog(s: State, ps: seq<string>)
    requires forall i, j :: 0 <= i < j < |ps| ==> ps[i] != ps[j]
    ensures MarkAll(s, ps).log == s.log + MissingMarkers(s.files, ps)
  {
    if ps != [] {
      var init, last := ps[..|ps| - 1], ps[|ps| - 1];
      MarkAllLog(s, init);
      MarkAllKeys(s, init);
      assert last !in init;
      assert last in MarkAll(s, init).files <==> last in s.files;
    }
  }

  /**
   * After `ensure_dir(path)` every placeholder of the path is present; what was
   * stored before is unchanged, and whatever is new is a placeholder with the
   * filler content.
   */
  lemma EnsureDirFiles(s: State, path: string)
    ensures forall p :: p in Paths.PlaceholderPaths(path) ==> p in AfterEnsureDir(s, path).files
    ensures forall k :: k in s.files ==> k in AfterEnsureDir(s, path).files && AfterEnsureDir(s, path).files[k] == s.files[k]
    ensures forall k :: k in AfterEnsureDir(s, path).files && k !in s.files ==>
              k in Paths.PlaceholderPaths(path) && AfterEnsureDir(s, path).files[k] == PlaceholderContent
  {
    MarkAllKeys(s, Paths.PlaceholderPaths(path));
    MarkAllKeeps(s, Paths.PlaceholderPaths(path));
  }

  /** `ensure_dir(path)` sends exactly one marker write per placeholder that was absent before it ran, in prefix order. */
  lemma EnsureDirRequests(s: State, path: string)
    ensures AfterEnsureDir(s, path).log == s.log + MissingMarkers(s.files, Paths.PlaceholderPaths(path))
  {
    Paths.PlaceholdersDistinct(path);
    MarkAllLog(s, Paths.PlaceholderPaths(path));
  }

  /** When every placeholder is already present, `ensure_dir` changes nothing. */
  lemma {:induction false} EnsureDirIdle(s: State, path: string)
    requires forall p :: p in Paths.PlaceholderPaths(path) ==> p in s.files
    ensures AfterEnsureDir(s, path) == s
  {
    EnsureDirIdleOn(s, Paths.PlaceholderPaths(path));
  }

  lemma {:induction false} EnsureDirIdleOn(s: State, ps: seq<string>)
    requires forall p :: p in ps ==> p in s.files
    ensures MarkAll(s, ps) == s
  {
    if ps != [] {
      EnsureDirIdleOn(s, ps[..|ps| - 1]);
      assert ps[|ps| - 1] in ps;
    }
  }

  // ---------------------------------------------------------------------------
  // create, update and delete

  /** `create` on a path that has a sha raises "already exists" and leaves the file as it was; the markers may have been added. */
  lemma CreateRefusesExisting(s: State, p: string, c: string, message: Option<string>)
    requires p in s.files
    ensures Write(s, Some(p), Some(c), message, false) == Step(AfterEnsureDir(s, p), Some(AlreadyExists(p)))
    ensures Write(s, Some(p), Some(c), message, false).state.files[p] == s.files[p]
  {
    EnsureDirFiles(s, p);
  }

  /** `create` on a path that is neither stored nor one of its own placeholders writes it, without a sha. */
  lemma CreateWritesNew(s: State, p: string, c: string, message: Option<string>)
    requires p !in s.files && p !in Paths.PlaceholderPaths(p)
    ensures Write(s, Some(p), Some(c), message, false).error == None
    ensures Write(s, Some(p), Some(c), message, false).state.files == AfterEnsureDir(s, p).files[p := c]
    ensures Write(s, Some(p), Some(c), message, false).state.log ==
              AfterEnsureDir(s, p).log + [Put(p, c, CommitMessage(message, "update: " + p), None)]
  {
    EnsureDirFiles(s, p);
  }

  /**
   * `update` always succeeds: the path then holds the new content, every other
   * path is as `ensure_dir` left it, and the PUT carries a sha exactly when the
   * file existed (before the command, or as a marker `ensure_dir` just wrote).
   */
  lemma UpdateOverwrites(s: State, p: string, c: string, message: Option<string>)
    ensures Write(s, Some(p), Some(c), message, true).error == None
    ensures Write(s, Some(p), Some(c), message, true).state.files[p] == c
    ensures forall k :: k != p ==>
              (k in Write(s, Some(p), Some(c), message, true).state.files <==> k in AfterEnsureDir(s, p).files)
    ensures Write(s, Some(p), Some(c), message, true).state ==
              State(AfterEnsureDir(s, p).files[p := c],
                    AfterEnsureDir(s, p).log + [Put(p, c, CommitMessage(message, "update: " + p), ShaAt(AfterEnsureDir(s, p).files, p))])
    ensures var log := Write(s, Some(p), Some(c), message, true).state.log;
            |log| == |AfterEnsureDir(s, p).log| + 1 &&
            log[|log| - 1].Put? &&
            (log[|log| - 1].sha.Some? <==> p in s.files || p in Paths.PlaceholderPaths(p)) &&
            (p in s.files ==> log[|log| - 1].sha == Some(Sha(s.files[p])))
  {
    EnsureDirFiles(s, p);
  }

  /** Failing before any write: a `None` path raises in `ensure_dir` and changes nothing. */
  lemma WriteWithoutPath(s: State, content: Option<string>, message: Option<string>, overwrite: bool)
    ensures Write(s, None, content, message, overwrite) == Step(s, Some(PathIsNone))
  {
  }

  /** `delete` on an absent path raises "not found" and changes nothing at all. */
  lemma DeleteAbsent(s: State, p: string, message: Option<string>)
    requires p !in s.files
    ensures Remove(s, p, message) == Step(s, Some(NotFound(p)))
  {
  }

  /** `delete` on a present path removes exactly that key and sends one DELETE with the file's sha. */
  lemma DeletePresent(s: State, p: string, message: Option<string>)
    requires p in s.files
    ensures Remove(s, p, message).error == None
    ensures p !in Remove(s, p, message).state.files
    ensures forall k :: k != p ==> (k in Remove(s, p, message).state.files <==> k in s.files)
    ensures forall k :: k != p && k in s.files ==> Remove(s, p, message).state.files[k] == s.files[k]
    ensures Remove(s, p, message).state.log == s.log + [Delete(p, CommitMessage(message, "delete: " + p), Sha(s.files[p]))]
  {
  }

  /** Deleting a freshly created file restores the files to what `ensure_dir` left. */
  lemma DeleteUndoesCreate(s: State, p: string, c: string, m1: Option<string>, m2: Option<string>)
    requires p !in s.files && p !in Paths.PlaceholderPaths(p)
    ensures var created := Write(s, Some(p), Some(c), m1, false).state;
            Remove(created, p, m2).error == None &&
            Remove(created, p, m2).state.files == AfterEnsureDir(s, p).files
  {
    CreateWritesNew(s, p, c, m1);
    EnsureDirFiles(s, p);
    var d := AfterEnsureDir(s, p).files;
    assert p !in d;
    assert d[p := c] - {p} == d;
  }

  /** A second create of the same path fails: the first one stored it. */
  lemma CreateTwiceFails(s: State, p: string, c1: string, c2: string, m1: Option<string>, m2: Option<string>)
    requires Write(s, Some(p), Some(c1), m1, false).error == None
    ensures Write(Write(s, Some(p), Some(c1), m1, false).state, Some(p), Some(c2), m2, false).error == Some(AlreadyExists(p))
  {
    var first := Write(s, Some(p), Some(c1), m1, false).state;
    assert p in first.files;
    CreateRefusesExisting(first, p, c2, m2);
  }

  // ---------------------------------------------------------------------------
  // The store as a mutable object

  /** The remote repository; `files` and `log` change as requests are sent. */
  class Repository {
    var files: map<string, string>
    var log: seq<Request>

    function Snapshot(): State
      reads this
    {
      State(files, log)
    }

    constructor (initial: map<string, string>)
      ensures files == initial && log == []
    {
      files := initial;
      log := [];
    }

    /** `get_sha(path)`: the token of the stored file, or None when the path is absent. */
    method GetSha(path: string) returns (sha: Option<Sha>)
      ensures sha == ShaAt(files, path)
      ensures sha.Some? <==> path in files
      ensures sha.Some? ==> sha.value == Sha(files[path])
    {
      if path in files {
        sha := Some(Sha(files[path]));
      } else {
        sha := None;
      }
    }

    /** `ensure_dir(path)`: a marker for every prefix of the parent that is missing. */
    method EnsureDir(path: string)
      modifies this
      ensures Snapshot() == AfterEnsureDir(old(Snapshot()), path)
    {
      var parts := Paths.ParentParts(path);
      ghost var ps := Paths.PlaceholderPaths(path);
      for i := 1 to |parts| + 1
        invariant Snapshot() == MarkAll(old(Snapshot()), ps[..i - 1])
      {
        var subpath := Paths.Join(parts[..i]) + "/.keep";
        assert ps[i - 1] == Paths.Placeholder(parts[..i]);
        assert ps[..i][..i - 1] == ps[..i - 1];
        if subpath !in files {  // the GET answered 404
          files := files[subpath := PlaceholderContent];
          log := log + [MarkerRequest(subpath)];
        }
      }
      assert ps[..|parts|] == ps;
    }

    /** `create_or_update_file(path, content, message, overwrite)`. */
    method CreateOrUpdateFile(path: Option<string>, content: Option<string>, message: Option<string>,
                              overwrite: bool) returns (error: Option<Error>)
      modifies this
      ensures Step(Snapshot(), error) == Write(old(Snapshot()), path, content, message, overwrite)
    {
      match path
      case None =>
        error := Some(PathIsNone);
      case Some(p) =>
        EnsureDir(p);
        match content
        case None =>
          error := Some(ContentIsNone);
        case Some(c) =>
          var sha := GetSha(p);
          if sha.Some? && !overwrite {
            error := Some(AlreadyExists(p));
          } else {
            files := files[p := c];
            log := log + [Put(p, c, CommitMessage(message, "update: " + p), sha)];
            error := None;
          }
    }

    /** `delete_file(path, message)`. */
    method DeleteFile(path: string, message: Option<string>) returns (error: Option<Error>)
      modifies this
      ensures Step(Snapshot(), error) == Remove(old(Snapshot()), path, message)
    {
      var sha := GetSha(path);
      if sha.None? {
        error := Some(NotFound(path));
      } else {
        files := files - {path};
        log := log + [Delete(path, CommitMessage(message, "delete: " + path), sha.value)];
        error := None;
      }
    }
  }
}
