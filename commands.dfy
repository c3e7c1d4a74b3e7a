/**
 * `parse_and_execute`: read the command out of the issue body, dispatch on its
 * action to create, update or delete, and answer on the triggering issue with
 * one comment (success text, or the failure prefix and the exception's text)
 * before closing it.
 */
module Commands {
  import opened Options
  import opened Errors
  import opened Store
  import Paths
  import Issues

  /** A JSON value in a field of the command; other JSON types are not modelled. */
  datatype JVal = JNull | JStr(s: string)

  /** The decoded JSON object; a field is None when its key is absent. */
  datatype Command = Command(action: Option<JVal>, path: Option<JVal>, content: Option<JVal>, message: Option<JVal>)

  /** What `json.loads` makes of the issue body. */
  datatype Body = Parsed(command: Command) | Malformed(reason: string)

  datatype Issue = Issue(number: int, body: Body)

  /** How the `try` block ended: with a success comment, or with an exception. */
  datatype Result = Done(comment: string) | Raised(error: Error)

  datatype Outcome = Outcome(state: State, result: Result)

  const DefaultMessage := "via GPT bridge"
  const FailurePrefix := "\U{274C} GPT Command failed: "

  /** The Python value of a JSON value: `None` for null. */
  function Value(v: JVal): Option<string>
  {
    match v
    case JNull => None
    case JStr(s) => Some(s)
  }

  /** `command.get(key, default)`. */
  function Get(field: Option<JVal>, default: Option<string>): Option<string>
  {
    match field
    case None => default
    case Some(v) => Value(v)
  }

  /** `str(v)` for a `str` or `None`, as an f-string renders it. */
  function Show(v: Option<string>): string
  {
    match v
    case None => "None"
    case Some(s) => s
  }

  function Created(path: Option<string>): string { "\U{2705} File `" + Show(path) + "` created." }
  function Updated(path: Option<string>): string { "\U{2705} File `" + Show(path) + "` updated." }
  function Deleted(path: Option<string>): string { "\U{1F5D1}\U{FE0F} File `" + Show(path) + "` deleted." }

  /** A store operation followed, when it raised nothing, by the given success comment. */
  function Finish(step: Step, success: string): Outcome
  {
    Outcome(step.state, if step.error.None? then Done(success) else Raised(step.error.value))
  }

  /** The `try` block of `parse_and_execute`: the store afterwards, and how the block ended. */
  function Execute(s: State, body: Body): (r: Outcome)
    ensures |s.log| <= |r.state.log| && r.state.log[..|s.log|] == s.log
  {
    match body
    case Malformed(reason) => Outcome(s, Raised(Unparsable(reason)))
    case Parsed(command) =>
      var action := Get(command.action, None);
      var path := Get(command.path, None);
      var message := Get(command.message, Some(DefaultMessage));
      if action == Some("create") || action == Some("update") then
        match command.content
        case None => Outcome(s, Raised(MissingKey("content")))
        case Some(v) =>
          var overwrite := action == Some("update");
          Finish(Write(s, path, Value(v), message, overwrite), if overwrite then Updated(path) else Created(path))
      else if action == Some("delete") then
        Finish(Remove(s, Show(path), message), Deleted(path))
      else
        Outcome(s, Raised(Unsupported(Show(action))))
  }

  /** The one comment posted on the triggering issue. */
  function Reply(r: Result): string
  {
    match r
    case Done(comment) => comment
    case Raised(e) => FailurePrefix + Text(e)
  }

  // ---------------------------------------------------------------------------
  // The respond rule

  /** A successful command answers with the success text of its own action and path. */
  lemma DoneIsActionText(s: State, body: Body)
    requires Execute(s, body).result.Done?
    ensures body.Parsed?
    ensures var path := Get(body.command.path, None);
            var action := Get(body.command.action, None);
            (action == Some("create") && Execute(s, body).result.comment == Created(path)) ||
            (action == Some("update") && Execute(s, body).result.comment == Updated(path)) ||
            (action == Some("delete") && Execute(s, body).result.comment == Deleted(path))
  {
  }

  /** The comment carries the failure prefix exactly when the command raised. */
  lemma ReplyShowsFailure(s: State, body: Body)
    ensures FailurePrefix <= Reply(Execute(s, body).result) <==> Execute(s, body).result.Raised?
  {
    var r := Execute(s, body).result;
    if r.Done? {
      DoneIsActionText(s, body);
      assert r.comment[0] != FailurePrefix[0];
    } else {
      assert Reply(r) == FailurePrefix + Text(r.error);
    }
  }

  /** An unparsable body is reported and nothing in the store changes. */
  lemma MalformedChangesNothing(s: State, reason: string)
    ensures Execute(s, Malformed(reason)).state == s
    ensures Execute(s, Malformed(reason)).result == Raised(Unparsable(reason))
  {
  }

  /** Any action but create, update and delete is refused without touching the store. */
  lemma UnsupportedChangesNothing(s: State, command: Command)
    requires Get(command.action, None) !in {Some("create"), Some("update"), Some("delete")}
    ensures Execute(s, Parsed(command)).state == s
    ensures Execute(s, Parsed(command)).result == Raised(Unsupported(Show(Get(command.action, None))))
  {
  }

  /** A create or update without a `content` key raises before any write. */
  lemma MissingContentChangesNothing(s: State, command: Command)
    requires Get(command.action, None) in {Some("create"), Some("update")}
    requires command.content.None?
    ensures Execute(s, Parsed(command)) == Outcome(s, Raised(MissingKey("content")))
  {
  }

  // ---------------------------------------------------------------------------
  // The file commands, seen from the issue

  /** `create` on a stored path keeps the file and answers "already exists". */
  lemma CreateExistingFails(s: State, p: string, c: string, message: Option<JVal>)
    requires p in s.files
    ensures var o := Execute(s, Parsed(Command(Some(JStr("create")), Some(JStr(p)), Some(JStr(c)), message)));
            p in o.state.files && o.state.files[p] == s.files[p] &&
            o.result == Raised(AlreadyExists(p))
  {
    var m := Get(message, Some(DefaultMessage));
    var o := Execute(s, Parsed(Command(Some(JStr("create")), Some(JStr(p)), Some(JStr(c)), message)));
    assert o == Finish(Write(s, Some(p), Some(c), m, false), Created(Some(p)));
    CreateRefusesExisting(s, p, c, m);
    assert o.result == Raised(AlreadyExists(p));
  }

  /** `update` with string content always succeeds and leaves the new content at the path. */
  lemma UpdateSucceeds(s: State, p: string, c: string, message: Option<JVal>)
    ensures var o := Execute(s, Parsed(Command(Some(JStr("update")), Some(JStr(p)), Some(JStr(c)), message)));
            o.result == Done(Updated(Some(p))) &&
            p in o.state.files && o.state.files[p] == c
  {
    UpdateOverwrites(s, p, c, Get(message, Some(DefaultMessage)));
  }

  /** `delete` removes exactly the named path, or reports "not found" and changes nothing. */
  lemma DeleteCommand(s: State, p: string, message: Option<JVal>)
    ensures var o := Execute(s, Parsed(Command(Some(JStr("delete")), Some(JStr(p)), None, message)));
            if p in s.files then
              o.result == Done(Deleted(Some(p))) &&
              o.state.files == s.files - {p}
            else
              o.state == s && o.result == Raised(NotFound(p))
  {
  }

  /** A delete whose path is missing or null looks up, and may delete, the file named `None`. */
  lemma DeleteWithoutPath(s: State, path: Option<JVal>, message: Option<JVal>)
    requires path == None || path == Some(JNull)
    ensures var o := Execute(s, Parsed(Command(Some(JStr("delete")), path, None, message)));
            o == Finish(Remove(s, "None", Get(message, Some(DefaultMessage))), Deleted(None))
  {
  }

  /**
   * The commit message of a create or update: the given message when it is a
   * non-empty string, "via GPT bridge" when the key is absent, and `update: <path>`
   * when it is null or empty.
   */
  lemma WriteCommitMessage(s: State, action: string, p: string, c: string, message: Option<JVal>)
    requires action == "create" || action == "update"
    requires Execute(s, Parsed(Command(Some(JStr(action)), Some(JStr(p)), Some(JStr(c)), message))).result.Done?
    ensures var log := Execute(s, Parsed(Command(Some(JStr(action)), Some(JStr(p)), Some(JStr(c)), message))).state.log;
            |log| > 0 && log[|log| - 1].Put? &&
            log[|log| - 1].message ==
              match message
              case None => DefaultMessage
              case Some(JStr(m)) => if m != "" then m else "update: " + p
              case Some(JNull) => "update: " + p
  {
  }

  /** The commit message of a delete, defaulted the same way to `delete: <path>`. */
  lemma DeleteCommitMessage(s: State, p: string, message: Option<JVal>)
    requires p in s.files
    ensures var log := Execute(s, Parsed(Command(Some(JStr("delete")), Some(JStr(p)), None, message))).state.log;
            |log| > 0 && log[|log| - 1].Delete? &&
            log[|log| - 1].message ==
              match message
              case None => DefaultMessage
              case Some(JStr(m)) => if m != "" then m else "delete: " + p
              case Some(JNull) => "delete: " + p
  {
  }

  /** A null content raises only after `ensure_dir`: the markers stay, the file is not written. */
  lemma NullContentKeepsMarkers(s: State, action: string, p: string, message: Option<JVal>)
    requires action == "create" || action == "update"
    ensures Execute(s, Parsed(Command(Some(JStr(action)), Some(JStr(p)), Some(JNull), message))) ==
              Outcome(AfterEnsureDir(s, p), Raised(ContentIsNone))
  {
  }

  // ---------------------------------------------------------------------------
  // Two concrete commands

  /**
   * Creating `dir/name` in a repository that has neither it nor `dir/.keep`
   * writes the marker, then the file, and answers with the success comment.
   */
  lemma CreateOneLevel(s: State, dir: string, name: string, c: string, message: Option<JVal>)
    requires Paths.IsSegment(dir) && Paths.IsSegment(name) && name != ".keep"
    requires dir + "/" + name !in s.files && dir + "/.keep" !in s.files
    ensures var o := Execute(s, Parsed(Command(Some(JStr("create")), Some(JStr(dir + "/" + name)), Some(JStr(c)), message)));
            o.state.files == s.files[dir + "/.keep" := PlaceholderContent][dir + "/" + name := c] &&
            o.result == Done(Created(Some(dir + "/" + name)))
  {
    var p := dir + "/" + name;
    Paths.OneLevelPlaceholders(dir, name);
    var marker := dir + "/.keep";
    var ps: seq<string> := [marker];
    assert ps[..0] == [];
    assert MarkAll(s, ps) == Mark(MarkAll(s, ps[..0]), marker);
    assert AfterEnsureDir(s, p) == Mark(s, marker);
    assert p != marker by {
      assert p[|dir| + 1..] == name;
      assert marker[|dir| + 1..] == ".keep";
    }
  }

  /** The scenario of a first note: `notes/a.txt` with content `hi` also creates `notes/.keep`. */
  lemma CreateNotesScenario(s: State, path: string, message: Option<JVal>)
    requires path == "notes/a.txt"
    requires path !in s.files && "notes/.keep" !in s.files
    ensures var o := Execute(s, Parsed(Command(Some(JStr("create")), Some(JStr(path)), Some(JStr("hi")), message)));
            o.state.files == s.files["notes/.keep" := PlaceholderContent][path := "hi"] &&
            o.result == Done(Created(Some("notes/a.txt")))
  {
    assert path == "notes" + "/" + "a.txt";
    assert "notes/.keep" == "notes" + "/.keep";
    assert Paths.IsSegment("notes") && Paths.IsSegment("a.txt");
    CreateOneLevel(s, "notes", "a.txt", "hi", message);
  }

  /**
   * Creating a directory's own marker, as in `docs/.keep`, always fails:
   * `ensure_dir` writes that marker first, so the sha check that follows finds it.
   */
  lemma CreateMarkerFails(s: State, dir: string, c: string, message: Option<JVal>)
    requires Paths.IsSegment(dir)
    ensures var o := Execute(s, Parsed(Command(Some(JStr("create")), Some(JStr(dir + "/.keep")), Some(JStr(c)), message)));
            o.result == Raised(AlreadyExists(dir + "/.keep"))
  {
    assert dir + "/.keep" == dir + "/" + ".keep";
    Paths.OneLevelPlaceholders(dir, ".keep");
    EnsureDirFiles(s, dir + "/.keep");
  }

  // ---------------------------------------------------------------------------
  // The handler

  /**
   * `parse_and_execute(issue)`: the store ends as `Execute` says, and the tracker
   * gains exactly one comment on the triggering issue, then its close.
   */
  method ParseAndExecute(repo: Repository, tracker: Issues.Tracker, issue: Issue)
    modifies repo, tracker
    ensures repo.Snapshot() == Execute(old(repo.Snapshot()), issue.body).state
    ensures tracker.events == old(tracker.events) +
              [Issues.Commented(issue.number, Reply(Execute(old(repo.Snapshot()), issue.body).result)),
               Issues.Closed(issue.number)]
  {
    var number := issue.number;
    var error: Option<Error> := None;
    match issue.body {
      case Malformed(reason) =>
        error := Some(Unparsable(reason));
      case Parsed(command) =>
        var action := Get(command.action, None);
        var path := Get(command.path, None);
        var message := Get(command.message, Some(DefaultMessage));
        if action == Some("create") {
          match command.content
          case None =>
            error := Some(MissingKey("content"));
          case Some(v) =>
            error := repo.CreateOrUpdateFile(path, Value(v), message, false);
            if error.None? {
              tracker.CommentAndClose(number, Created(path));
            }
        } else if action == Some("update") {
          match command.content
          case None =>
            error := Some(MissingKey("content"));
          case Some(v) =>
            error := repo.CreateOrUpdateFile(path, Value(v), message, true);
            if error.None? {
              tracker.CommentAndClose(number, Updated(path));
            }
        } else if action == Some("delete") {
          error := repo.DeleteFile(Show(path), message);
          if error.None? {
            tracker.CommentAndClose(number, Deleted(path));
          }
        } else {
          error := Some(Unsupported(Show(action)));
        }
    }
    if error.Some? {
      tracker.CommentAndClose(number, FailurePrefix + Text(error.value));
    }
  }
}
