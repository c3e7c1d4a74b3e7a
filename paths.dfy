/**
 * The path arithmetic of `ensure_dir`: the parts of `Path(path).parent` as
 * POSIX pathlib computes them, and the placeholder path `"/".join(parts[:i]) + "/.keep"`
 * for every prefix of those parts.
 */
module Paths {

  /** `s.split("/")`: the pieces between slashes, at least one. */
  function Split(s: string): (r: seq<string>)
    ensures |r| >= 1
    ensures forall i :: 0 <= i < |r| ==> '/' !in r[i]
  {
    if |s| == 0 then [""]
    else
      var rest := Split(s[1..]);
      if s[0] == '/' then [""] + rest
      else [[s[0]] + rest[0]] + rest[1..]
  }

  /** `"/".join(parts)`. */
  function Join(parts: seq<string>): string
  {
    if |parts| == 0 then ""
    else if |parts| == 1 then parts[0]
    else parts[0] + "/" + Join(parts[1..])
  }

  /** A name pathlib keeps as one of a relative path's parts. */
  predicate IsSegment(x: string)
  {
    x != "" && x != "." && '/' !in x
  }

  /** Drops the empty pieces (from `//` or a trailing `/`) and the `.` pieces, as pathlib does. */
  function Clean(pieces: seq<string>): (r: seq<string>)
    ensures |r| <= |pieces|
    ensures forall i :: 0 <= i < |r| ==> r[i] in pieces && r[i] != "" && r[i] != "."
  {
    if |pieces| == 0 then []
    else
      var rest := Clean(pieces[1..]);
      if pieces[0] == "" || pieces[0] == "." then rest else [pieces[0]] + rest
  }

  /** The anchor of a POSIX path: exactly two leading slashes are kept as `//`, one or three or more as `/`. */
  function Root(s: string): string
  {
    if |s| >= 2 && s[0] == '/' && s[1] == '/' && (|s| == 2 || s[2] != '/') then "//"
    else if |s| >= 1 && s[0] == '/' then "/"
    else ""
  }

  function RootParts(s: string): seq<string>
  {
    if Root(s) == "" then [] else [Root(s)]
  }

  /** `Path(s).parts`. */
  function Parts(s: string): seq<string>
  {
    RootParts(s) + Clean(Split(s))
  }

  /** `Path(s).parent.parts`: the last name dropped; the parent of a bare anchor is the anchor itself. */
  function ParentParts(s: string): (r: seq<string>)
    ensures r <= Parts(s)
    ensures |Parts(s)| - 1 <= |r|
  {
    var names := Clean(Split(s));
    RootParts(s) + (if names == [] then [] else names[..|names| - 1])
  }

  /** The placeholder marker for the directory whose parts are `dir`. */
  function Placeholder(dir: seq<string>): string
  {
    Join(dir) + "/.keep"
  }

  /** The markers `ensure_dir` visits, in loop order: one per non-empty prefix of the parent's parts. */
  function PlaceholderPaths(path: string): (r: seq<string>)
    ensures |r| == |ParentParts(path)|
  {
    var parts := ParentParts(path);
    seq(|parts|, i requires 0 <= i < |parts| => Placeholder(parts[..i + 1]))
  }

  // ---------------------------------------------------------------------------
  // Split and Join are inverse to each other

  lemma {:induction false} JoinSplit(s: string)
    ensures Join(Split(s)) == s
  {
    if |s| > 0 {
      var rest := Split(s[1..]);
      JoinSplit(s[1..]);
      if s[0] == '/' {
        assert Split(s) == [""] + rest;
        assert Join(Split(s)) == "" + "/" + Join(rest);
        assert s == [s[0]] + s[1..];
      } else if |rest| == 1 {
        assert Join(Split(s)) == [s[0]] + rest[0];
        assert s == [s[0]] + s[1..];
      } else {
        var t := [[s[0]] + rest[0]] + rest[1..];
        assert t[1..] == rest[1..];
        assert Join(t) == [s[0]] + rest[0] + "/" + Join(rest[1..]);
        assert Join(rest) == rest[0] + "/" + Join(rest[1..]);
        assert s == [s[0]] + s[1..];
      }
    }
  }

  /** Splitting a slash-free head followed by anything glues the head to the first piece. */
  lemma {:induction false} SplitAfterName(a: string, t: string)
    requires '/' !in a
    ensures Split(a + t) == [a + Split(t)[0]] + Split(t)[1..]
  {
    if |a| > 0 {
      SplitAfterName(a[1..], t);
      assert (a + t)[1..] == a[1..] + t;
      assert (a + t)[0] == a[0];
      var rest := Split(a[1..] + t);
      assert Split(a + t) == [[a[0]] + rest[0]] + rest[1..];
      assert rest[0] == a[1..] + Split(t)[0];
      assert rest[1..] == Split(t)[1..];
      assert [a[0]] + (a[1..] + Split(t)[0]) == a + Split(t)[0];
    } else {
      assert a + t == t;
      assert a + Split(t)[0] == Split(t)[0];
      assert Split(t) == [Split(t)[0]] + Split(t)[1..];
    }
  }

  lemma {:induction false} SplitJoin(parts: seq<string>)
    requires |parts| >= 1
    requires forall i :: 0 <= i < |parts| ==> '/' !in parts[i]
    ensures Split(Join(parts)) == parts
  {
    if |parts| == 1 {
      SplitAfterName(parts[0], "");
      assert parts[0] + "" == parts[0];
    } else {
      var tail := Join(parts[1..]);
      SplitJoin(parts[1..]);
      assert Join(parts) == parts[0] + ("/" + tail);
      SplitAfterName(parts[0], "/" + tail);
      assert Split("/" + tail) == [""] + Split(tail) by {
        assert ("/" + tail)[1..] == tail;
      }
      assert Split(Join(parts)) == [parts[0] + ""] + Split(tail);
      assert parts[0] + "" == parts[0];
      assert parts == [parts[0]] + parts[1..];
    }
  }

  // ---------------------------------------------------------------------------
  // Facts about Join and Clean used below

  lemma {:induction false} JoinSnoc(dir: seq<string>, name: string)
    requires |dir| >= 1
    ensures Join(dir + [name]) == Join(dir) + "/" + name
  {
    if |dir| > 1 {
      JoinSnoc(dir[1..], name);
      assert (dir + [name])[1..] == dir[1..] + [name];
    }
  }

  /** Joining more parts only extends the string, past a separating slash. */
  lemma {:induction false} JoinExtends(a: seq<string>, b: seq<string>)
    requires |a| >= 1 && |b| >= 1
    ensures Join(a) + "/" <= Join(a + b)
  {
    if |a| == 1 {
      assert (a + b)[1..] == b;
      assert Join(a + b) == a[0] + "/" + Join(b);
    } else {
      JoinExtends(a[1..], b);
      assert (a + b)[1..] == a[1..] + b;
      var x, y := Join(a[1..]) + "/", Join(a[1..] + b);
      assert Join(a) + "/" == (a[0] + "/") + x;
      assert Join(a + b) == (a[0] + "/") + y;
      assert y == x + y[|x|..];
    }
  }

  lemma {:induction false} CleanOfSegments(names: seq<string>)
    requires forall i :: 0 <= i < |names| ==> IsSegment(names[i])
    ensures Clean(names) == names
  {
    if |names| > 0 {
      CleanOfSegments(names[1..]);
      assert names == [names[0]] + names[1..];
    }
  }

  /** Every name pathlib keeps from a string is a proper segment. */
  lemma CleanSplitSegments(s: string)
    ensures forall i :: 0 <= i < |Clean(Split(s))| ==> IsSegment(Clean(Split(s))[i])
  {
  }

  // ---------------------------------------------------------------------------
  // The placeholder paths

  /** A path without parent directories gets no placeholder. */
  lemma NoPlaceholderAtTopLevel(path: string)
    requires Root(path) == "" && |Parts(path)| <= 1
    ensures PlaceholderPaths(path) == []
  {
  }

  /** A relative path gets one placeholder per directory above it. */
  lemma PlaceholderCount(path: string)
    requires Root(path) == "" && |Parts(path)| >= 1
    ensures |PlaceholderPaths(path)| == |Parts(path)| - 1
  {
  }

  /**
   * For a relative path, the i-th placeholder lies exactly in the directory made of
   * the first i+1 parent parts: pathlib reads it back as those parts followed by `.keep`.
   */
  lemma {:induction false} PlaceholderLocation(path: string, i: nat)
    requires Root(path) == ""
    requires i < |PlaceholderPaths(path)|
    ensures Parts(PlaceholderPaths(path)[i]) == ParentParts(path)[..i + 1] + [".keep"]
    ensures ParentParts(PlaceholderPaths(path)[i]) == ParentParts(path)[..i + 1]
  {
    var dir := ParentParts(path)[..i + 1];
    RelativeParentSegments(path);
    var full := dir + [".keep"];
    assert forall k :: 0 <= k < |full| ==> IsSegment(full[k]) by {
      assert forall k :: 0 <= k < |dir| ==> dir[k] == ParentParts(path)[k];
    }
    assert PlaceholderPaths(path)[i] == Placeholder(dir);
    JoinSnoc(dir, ".keep");
    var p := Join(full);
    assert PlaceholderPaths(path)[i] == p;
    PartsOfJoin(full);
    assert RootParts(p) == [];
    assert Parts(p) == full;
    assert full[..|full| - 1] == dir;
  }

  /** The parent parts of a relative path are all proper segments. */
  lemma RelativeParentSegments(path: string)
    requires Root(path) == ""
    ensures forall k :: 0 <= k < |ParentParts(path)| ==> IsSegment(ParentParts(path)[k])
  {
    var names := Clean(Split(path));
    CleanSplitSegments(path);
    assert ParentParts(path) == if names == [] then [] else names[..|names| - 1];
  }

  /** pathlib reads a join of proper segments back as those segments. */
  lemma PartsOfJoin(full: seq<string>)
    requires |full| >= 1
    requires forall k :: 0 <= k < |full| ==> IsSegment(full[k])
    ensures Root(Join(full)) == ""
    ensures Clean(Split(Join(full))) == full
  {
    SplitJoin(full);
    CleanOfSegments(full);
    JoinHead(full);
  }

  /** A join of segments starts with the first segment's first character. */
  lemma JoinHead(dir: seq<string>)
    requires |dir| >= 1 && IsSegment(dir[0])
    ensures |Join(dir)| >= 1 && Join(dir)[0] == dir[0][0]
  {
  }

  /** A file one directory deep has exactly the one placeholder of that directory. */
  lemma {:induction false} OneLevelPlaceholders(dir: string, name: string)
    requires IsSegment(dir) && IsSegment(name)
    ensures PlaceholderPaths(dir + "/" + name) == [dir + "/.keep"]
  {
    var parts := [dir, name];
    var path := dir + "/" + name;
    assert Join(parts) == path by {
      assert parts[1..] == [name];
    }
    SplitJoin(parts);
    CleanOfSegments(parts);
    assert path[0] == dir[0];
    assert Root(path) == "";
    assert ParentParts(path) == [dir];
    assert [dir][..1] == [dir];
    assert PlaceholderPaths(path)[0] == Placeholder([dir]);
    assert Join([dir]) == dir;
  }

  /**
   * The placeholders come in increasing prefix order: the directory of an earlier
   * one, with its slash, is a prefix of every later one, which is strictly longer.
   */
  lemma PlaceholdersNested(path: string, i: nat, j: nat)
    requires i < j < |PlaceholderPaths(path)|
    ensures |PlaceholderPaths(path)[i]| < |PlaceholderPaths(path)[j]|
    ensures Join(ParentParts(path)[..i + 1]) + "/" <= PlaceholderPaths(path)[j]
  {
    var parts := ParentParts(path);
    var a, b := parts[..i + 1], parts[i + 1..j + 1];
    assert parts[..j + 1] == a + b;
    JoinExtends(a, b);
    var pi, pj := PlaceholderPaths(path)[i], PlaceholderPaths(path)[j];
    assert pi == Placeholder(a);
    assert pj == Placeholder(a + b);
    var x, y := Join(a) + "/", Join(a + b);
    assert pj == y + "/.keep";
    assert x <= pj by {
      assert x == y[..|x|];
      assert pj[..|x|] == y[..|x|];
    }
  }

  /** No marker is visited twice. */
  lemma PlaceholdersDistinct(path: string)
    ensures forall i, j :: 0 <= i < j < |PlaceholderPaths(path)| ==>
              PlaceholderPaths(path)[i] != PlaceholderPaths(path)[j]
  {
    forall i, j | 0 <= i < j < |PlaceholderPaths(path)|
      ensures PlaceholderPaths(path)[i] != PlaceholderPaths(path)[j]
    {
      PlaceholdersNested(path, i, j);
    }
  }
}
