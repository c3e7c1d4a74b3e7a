# GPT command bridge: command execution, modelled in Dafny

The script `scripts/handle_gpt_commands.py` takes one issue labelled as a command. It parses the
issue body as a JSON command with the fields `action`, `path`, `content` and `message`. It then
creates, updates or deletes one file in the repository through the contents API. Before creating
or updating a file, it adds a `.keep` placeholder for every missing parent directory. Finally it posts one comment on
the issue and closes it, whatever the outcome.

This project models that logic. The REST calls are replaced by two abstract services:

- **the repository store** (`Store.Repository`): a map from path to content. "The path has a sha"
  means "the path is a key". A log records every PUT and DELETE request with its payload: commit
  message, content and sha. The sha is modelled as a content-addressed token `Sha(content)`.
- **the issue tracker** (`Issues.Tracker`): a log of `Commented(issue, body)` and `Closed(issue)`
  events.

Modules, one per concern of the script:

- `Options`: `Option`, standing for Python's `None` or for an absent JSON key.
- `Errors`: the exceptions of the handler that the model represents, and the `str()` text of each.
- `Paths`: `Path(path).parent.parts` as POSIX pathlib computes it. The anchors `/` and `//` are
  included, and empty and `.` pieces are dropped. Also the placeholder paths
  `"/".join(parts[:i]) + "/.keep"` (lines 25-27).
- `Store`: pure specification functions over a `State` (files and request log): `AfterEnsureDir`,
  `Write` (`create_or_update_file`) and `Remove` (`delete_file`). It also holds the `Repository`
  class. Its methods `EnsureDir` (the loop of lines 26-38), `CreateOrUpdateFile` and `DeleteFile`
  change the object in place, and each is proved equal to its specification function. The read-only
  `GetSha` is proved to answer as `ShaAt`.
- `Issues`: the `Tracker` class with `CommentAndClose`.
- `Commands`: the decoded command (`Command`, with each field absent, JSON null or a string), the
  `Execute` function for the `try` block, and the `Reply` function for the comment text. Also the
  `ParseAndExecute` method, which runs both services and is proved to post exactly one comment
  followed by one close.

Behaviour of the source that the model keeps on purpose:

- The message is read with `command.get("message", "via GPT bridge")`. So the commit-message
  fallbacks `update: <path>` and `delete: <path>` apply only when `message` is JSON null or the
  empty string (`WriteCommitMessage`, `DeleteCommitMessage`).
- A missing `content` key raises `KeyError` before anything is written. A null `content` raises
  only after `ensure_dir`, so the placeholders stay (`NullContentKeepsMarkers`).
- A missing or null `path` makes create and update fail in `Path(None)`. A delete instead formats
  the path as the string `None`: it looks up, and may delete, a file named `None`
  (`DeleteWithoutPath`).
- `ensure_dir` runs before the sha check. So creating a directory's own marker fails with
  "already exists", for example `docs/.keep` in a fresh directory (`CreateMarkerFails`).
  A failed create on an existing path may still have added placeholders (`CreateRefusesExisting`).
- `update` overwrites unconditionally and also creates an absent file. The PUT carries a sha exactly
  when the file existed (`UpdateOverwrites`).

Two consequences of the code as written:

- The script has no `comment` action, so `comment` gets
  "Unsupported action: comment".
- An absent path is not reported as a missing field: create and update raise the `TypeError` of
  `Path(None)`, and delete uses the string `None` as the path.

The comment texts contain the code points U+2705, U+1F5D1 U+FE0F and U+274C, written as `\U{…}`
escapes.

## Model

| member | source | states |
|---|---|---|
| `Paths.ParentParts` | scripts/handle_gpt_commands.py:25 | `Path(path).parent.parts` is a prefix of the path's own parts and drops at most one of them |
| `Paths.PlaceholderPaths` | scripts/handle_gpt_commands.py:25-27 | `ensure_dir` visits one placeholder per part of the parent path |
| `Paths.JoinSplit` | scripts/handle_gpt_commands.py:27 | joining the pieces of a split with `/` gives back the original string |
| `Paths.SplitJoin` | scripts/handle_gpt_commands.py:27 | splitting a join of slash-free names gives back the names |
| `Paths.NoPlaceholderAtTopLevel` | scripts/handle_gpt_commands.py:25-26 | a relative path with no parent directory gets no placeholder |
| `Paths.PlaceholderCount` | scripts/handle_gpt_commands.py:25-26 | a relative path of k+1 parts gets exactly k placeholders |
| `Paths.PlaceholderLocation` | scripts/handle_gpt_commands.py:25-27 | for a relative path, pathlib reads placeholder i back as the first i+1 parent parts followed by `.keep` |
| `Paths.PlaceholdersNested` | scripts/handle_gpt_commands.py:26-27 | the placeholders come in increasing prefix order: an earlier directory with its slash is a prefix of every later placeholder, and each later one is longer |
| `Paths.PlaceholdersDistinct` | scripts/handle_gpt_commands.py:26-27 | no placeholder is visited twice |
| `Paths.OneLevelPlaceholders` | scripts/handle_gpt_commands.py:25-27 | `dir/name` has exactly the one placeholder `dir/.keep` |
| `Store.ShaAt` | scripts/handle_gpt_commands.py:41-45 | a sha is returned exactly when the path is stored |
| `Store.CommitMessage` | scripts/handle_gpt_commands.py:57 | `message or fallback` is the fallback or the given message, and it is never empty when the fallback is not (the same rule on line 74) |
| `Store.Write` | scripts/handle_gpt_commands.py:48-64 | `create_or_update_file` only appends requests to the log, and when it raises nothing the path holds the given content |
| `Store.Remove` | scripts/handle_gpt_commands.py:68-79 | `delete_file` succeeds exactly when the path is stored, leaves the path absent either way, and only appends requests to the log |
| `Store.EnsureDirFiles` | scripts/handle_gpt_commands.py:28-38 | after `ensure_dir` every placeholder is present; stored entries are unchanged; every new entry is a placeholder with the filler content |
| `Store.EnsureDirRequests` | scripts/handle_gpt_commands.py:28-38 | `ensure_dir` sends exactly one marker PUT, without a sha, for each placeholder that was absent before it ran, in prefix order |
| `Store.EnsureDirIdle` | scripts/handle_gpt_commands.py:28-29 | when every placeholder exists, `ensure_dir` changes nothing and sends no write (its GET requests are not logged) |
| `Store.CreateRefusesExisting` | scripts/handle_gpt_commands.py:49-54 | create on a stored path raises "already exists" after `ensure_dir` and leaves the file unchanged |
| `Store.CreateWritesNew` | scripts/handle_gpt_commands.py:49-63 | create on an absent path that is not one of its own placeholders stores the content and sends a PUT without a sha, with the defaulted message |
| `Store.UpdateOverwrites` | scripts/handle_gpt_commands.py:53-63 | update always succeeds; the new state is exactly the one `ensure_dir` left with the path set to the new content, and its log gains exactly one PUT of that path, content and defaulted message; the PUT carries a sha exactly when the file existed, and it is the old content's sha |
| `Store.WriteWithoutPath` | scripts/handle_gpt_commands.py:24-25 | a `None` path raises in `ensure_dir` before any request |
| `Store.DeleteAbsent` | scripts/handle_gpt_commands.py:69-71 | delete on an absent path raises "not found" and changes neither files nor log |
| `Store.DeletePresent` | scripts/handle_gpt_commands.py:69-78 | delete on a present path removes exactly that key and sends one DELETE with the file's sha and the defaulted message |
| `Store.DeleteUndoesCreate` | scripts/handle_gpt_commands.py:48-78 | deleting a freshly created file restores the files that `ensure_dir` left |
| `Store.CreateTwiceFails` | scripts/handle_gpt_commands.py:51-54 | after a successful create, a second create of the same path raises "already exists" |
| `Store.Repository.GetSha` | scripts/handle_gpt_commands.py:41-45 | answers as `ShaAt`: the stored file's sha exactly when the path is a key, and changes nothing |
| `Store.Repository.EnsureDir` | scripts/handle_gpt_commands.py:24-38 | the loop leaves the store and the log as `AfterEnsureDir` says |
| `Store.Repository.CreateOrUpdateFile` | scripts/handle_gpt_commands.py:48-64 | the new store, the new log and the raised error are those of `Write` |
| `Store.Repository.DeleteFile` | scripts/handle_gpt_commands.py:68-79 | the new store, the new log and the raised error are those of `Remove` |
| `Issues.Tracker.CommentAndClose` | scripts/handle_gpt_commands.py:83-93 | appends one comment on the issue, then its close |
| `Commands.Execute` | scripts/handle_gpt_commands.py:98-119 | the `try` block of `parse_and_execute` only ever appends requests to the log, whatever the command |
| `Commands.DoneIsActionText` | scripts/handle_gpt_commands.py:106-116 | a successful command came from a parsed body, and its comment is the success text of its own action and path |
| `Commands.ReplyShowsFailure` | scripts/handle_gpt_commands.py:106-124 | the comment starts with the failure prefix exactly when the command raised |
| `Commands.MalformedChangesNothing` | scripts/handle_gpt_commands.py:98-101 | an unparsable body leaves the store unchanged and reports the decoder's error |
| `Commands.UnsupportedChangesNothing` | scripts/handle_gpt_commands.py:118-119 | any other action raises "Unsupported action: <action>" and leaves the store unchanged |
| `Commands.MissingContentChangesNothing` | scripts/handle_gpt_commands.py:107 | create or update without a `content` key raises the KeyError before any request |
| `Commands.CreateExistingFails` | scripts/handle_gpt_commands.py:106-108 | a create command on a stored path keeps the file and raises "already exists" |
| `Commands.UpdateSucceeds` | scripts/handle_gpt_commands.py:110-112 | an update command with string content succeeds with the "updated" comment and stores the content |
| `Commands.DeleteCommand` | scripts/handle_gpt_commands.py:114-116 | a delete command removes exactly the path with the "deleted" comment, or raises "not found" and changes nothing |
| `Commands.DeleteWithoutPath` | scripts/handle_gpt_commands.py:103-116 | a delete with a missing or null path acts on the file named `None` |
| `Commands.WriteCommitMessage` | scripts/handle_gpt_commands.py:104-111 | the commit message of a create or update is the given non-empty message, "via GPT bridge" when the key is absent, and `update: <path>` when it is null or empty |
| `Commands.DeleteCommitMessage` | scripts/handle_gpt_commands.py:104-115 | the same for delete, with `delete: <path>` |
| `Commands.NullContentKeepsMarkers` | scripts/handle_gpt_commands.py:49-50 | a null content raises after `ensure_dir`: placeholders stay, the file is not written |
| `Commands.CreateOneLevel` | scripts/handle_gpt_commands.py:106-108 | creating `dir/name` in an empty directory stores the marker and the file, and succeeds |
| `Commands.CreateNotesScenario` | scripts/handle_gpt_commands.py:106-108 | creating `notes/a.txt` with content `hi` also creates `notes/.keep` and succeeds |
| `Commands.CreateMarkerFails` | scripts/handle_gpt_commands.py:49-54 | creating `dir/.keep` always fails with "already exists", because `ensure_dir` wrote it first |
| `Commands.ParseAndExecute` | scripts/handle_gpt_commands.py:96-124 | the store ends as `Execute` says; the tracker gains exactly one comment on the triggering issue, with the success text or the failure text, followed by its close |

## Left out

- HTTP transport, headers and authentication are not modelled. Every store and tracker call is
  assumed to succeed, so `raise_for_status` failures, the ignored result of the placeholder PUT, and
  a failing `comment_and_close` are not modelled.
- Status codes are modelled only as present (200) and absent (404).
- `get_latest_labeled_issue` and the `__main__` block are left out. They only list issues.
- `json.loads` is a library call. The body comes in already decoded, as a `Command` or as
  `Malformed(reason)`, which takes the failure path with the decoder's text. A body that is JSON
  but not an object (its `.get` raises an `AttributeError`) is treated as `Malformed`, and so is a
  missing body.
- Strings are sequences of Unicode scalar values, so a JSON string holding a lone surrogate (such as
  `"\ud800"`, which `json.loads` accepts) cannot be represented. The `UnicodeEncodeError` that
  `content.encode()` (line 50) raises for it after `ensure_dir` is not modelled.
- JSON values other than strings and null, such as numbers, lists or objects in `path`, `content`
  or `message`, are not modelled.
- Base64 encoding of contents is a library call and a bijection, so contents are stored directly.
- `get_sha` on a path that is a directory is not modelled. The API answers with a list there.
- The `str()` texts of the built-in `TypeError` and `AttributeError` are taken from CPython 3.12.
  Other versions word them differently.
- The `issue["number"]` lookup outside the `try` is not modelled: the issue number is given.
- Environment configuration (`GITHUB_REPOSITORY`, `GH_TOKEN`) and `print` logging are left out.
- Store keys are the raw `path` strings, while placeholder paths are built from pathlib's normalised
  parts: `./a/b` gets the placeholder `a/.keep` but is stored under `./a/b`. Whether the contents API
  treats two spellings of one path as the same file is not modelled.
- Concurrent invocations are not modelled. The check-then-create of placeholders is not atomic.
