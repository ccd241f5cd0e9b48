/** Node's `path.posix.join`, for the two-argument call the upload routes
    make with an absolute directory: the arguments are joined with `/` and the
    result normalised (empty and `.` segments dropped, `..` removes the
    segment before it and cannot climb above the root, a trailing `/` kept). */
module Paths {

  /** `p.split("/")`. */
  function Split(p: string): (r: seq<string>)
    ensures |r| >= 1
    decreases |p|
  {
    if |p| == 0 then [""]
    else
      var rest := Split(p[1..]);
      if p[0] == '/' then [""] + rest else [[p[0]] + rest[0]] + rest[1..]
  }

  predicate NoSlash(s: string)
  {
    forall k :: 0 <= k < |s| ==> s[k] != '/'
  }

  /** A string without `/` is one segment. */
  lemma {:induction false} SplitSegment(s: string)
    requires NoSlash(s)
    ensures Split(s) == [s]
    decreases |s|
  {
    if |s| > 0 {
      SplitSegment(s[1..]);
      assert [s[0]] + s[1..] == s;
    }
  }

  /** Splitting at a `/` splits the two sides independently. */
  lemma {:induction false} SplitAtSlash(a: string, b: string)
    ensures Split(a + "/" + b) == Split(a) + Split(b)
    decreases |a|
  {
    if |a| == 0 {
      assert a + "/" + b == "/" + b;
      assert ("/" + b)[1..] == b;
    } else {
      assert (a + "/" + b)[1..] == a[1..] + "/" + b;
      SplitAtSlash(a[1..], b);
    }
  }

  /** The segment stack after resolving `segments` on top of `stack`. */
  function Resolve(stack: seq<string>, segments: seq<string>): seq<string>
    decreases |segments|
  {
    if |segments| == 0 then stack
    else
      var seg := segments[0];
      var next :=
        if seg == "" || seg == "." then stack
        else if seg == ".." then (if |stack| > 0 then stack[..|stack| - 1] else stack)
        else stack + [seg];
      Resolve(next, segments[1..])
  }

  /** `segments.join("/")`. */
  function JoinSegments(segments: seq<string>): string
    decreases |segments|
  {
    if |segments| == 0 then ""
    else if |segments| == 1 then segments[0]
    else segments[0] + "/" + JoinSegments(segments[1..])
  }

  /** `path.posix.normalize` of an absolute path. */
  function NormalizeAbsolute(p: string): string
    requires |p| > 0 && p[0] == '/'
  {
    var stack := Resolve([], Split(p));
    if |stack| == 0 then "/"
    else "/" + JoinSegments(stack) + (if p[|p| - 1] == '/' then "/" else "")
  }

  /** `path.posix.join(dir, name)` for an absolute `dir`. */
  function JoinUnder(dir: string, name: string): string
    requires |dir| > 0 && dir[0] == '/'
  {
    if |name| == 0 then NormalizeAbsolute(dir) else NormalizeAbsolute(dir + "/" + name)
  }

  /** A plain file name: one segment that normalisation leaves alone. */
  predicate IsPlainSegment(name: string)
  {
    |name| > 0 && NoSlash(name) && name != "." && name != ".."
  }

  /** Plain segments are simply pushed onto the stack. */
  lemma {:induction false} ResolvePlain(stack: seq<string>, segments: seq<string>)
    requires forall k :: 0 <= k < |segments| ==> IsPlainSegment(segments[k])
    ensures Resolve(stack, segments) == stack + segments
    decreases |segments|
  {
    if |segments| > 0 {
      ResolvePlain(stack + [segments[0]], segments[1..]);
      assert stack + [segments[0]] + segments[1..] == stack + segments;
    }
  }

  lemma SplitThreeSegments(top: string, sub: string, name: string)
    requires IsPlainSegment(top) && IsPlainSegment(sub) && IsPlainSegment(name)
    ensures Split("/" + top + "/" + sub + "/" + name) == ["", top, sub, name]
  {
    var p := "/" + top + "/" + sub + "/" + name;
    assert p == "" + "/" + (top + "/" + (sub + "/" + name));
    SplitAtSlash("", top + "/" + (sub + "/" + name));
    SplitAtSlash(top, sub + "/" + name);
    SplitAtSlash(sub, name);
    SplitSegment(top);
    SplitSegment(sub);
    SplitSegment(name);
  }

  lemma JoinThreeSegments(top: string, sub: string, name: string)
    ensures JoinSegments([top, sub, name]) == top + "/" + sub + "/" + name
  {
    assert [top, sub, name][1..] == [sub, name];
    assert [sub, name][1..] == [name];
    assert JoinSegments([sub, name]) == sub + "/" + name;
  }

  lemma ResolveThreeSegments(top: string, sub: string, name: string)
    requires IsPlainSegment(top) && IsPlainSegment(sub) && IsPlainSegment(name)
    ensures Resolve([], ["", top, sub, name]) == [top, sub, name]
  {
    assert ["", top, sub, name][1..] == [top, sub, name];
    ResolvePlain([], [top, sub, name]);
  }

  /** Joining a plain file name to a plain two-level directory simply
      concatenates them with a `/`. */
  lemma JoinPlain(top: string, sub: string, name: string)
    requires IsPlainSegment(top) && IsPlainSegment(sub) && IsPlainSegment(name)
    ensures JoinUnder("/" + top + "/" + sub, name) == "/" + top + "/" + sub + "/" + name
  {
    var p := "/" + top + "/" + sub + "/" + name;
    SplitThreeSegments(top, sub, name);
    ResolveThreeSegments(top, sub, name);
    JoinThreeSegments(top, sub, name);
    assert p[|p| - 1] == name[|name| - 1];
    assert NormalizeAbsolute(p) == "/" + (top + "/" + sub + "/" + name);
  }
}
