/** Slash-separated paths: splitting and joining components, and QDir::cleanPath on absolute
    paths as a stack fold over components. */
module Paths {

  // QString::split with KeepEmptyParts
  function Split(s: string): (cs: seq<string>)
    ensures |cs| >= 1
  {
    if s == "" then [""]
    else
      var rest := Split(s[1..]);
      if s[0] == '/' then [""] + rest else [[s[0]] + rest[0]] + rest[1..]
  }

  function Joined(cs: seq<string>): string {
    if cs == [] then "" else if |cs| == 1 then cs[0] else cs[0] + "/" + Joined(cs[1..])
  }

  ghost predicate Unsplit(cs: seq<string>) {
    forall i :: 0 <= i < |cs| ==> '/' !in cs[i]
  }

  lemma {:induction false} SplitParts(s: string)
    ensures Unsplit(Split(s)) && Joined(Split(s)) == s
  {
    if s != "" {
      var head, rest := [s[0]], Split(s[1..]);
      SplitParts(s[1..]);
      assert s == head + s[1..];
      if s[0] == '/' {
        assert Split(s)[1..] == rest;
      } else {
        assert Split(s)[1..] == rest[1..];
        if |rest| > 1 {
          Regroup(head, rest[0], Joined(rest[1..]));
        }
      }
    }
  }

  lemma Regroup(head: string, a: string, b: string)
    ensures (head + a) + "/" + b == head + (a + "/" + b)
  {
  }

  lemma {:induction false} SplitAppend(c: string, s: string)
    requires '/' !in c
    ensures Split(c + "/" + s) == [c] + Split(s)
  {
    if c == "" {
      assert ("" + "/" + s)[1..] == s;
    } else {
      SplitAppend(c[1..], s);
      assert (c + "/" + s)[1..] == c[1..] + "/" + s;
      assert c == [c[0]] + c[1..];
    }
  }

  lemma {:induction false} SplitSingle(c: string)
    requires '/' !in c
    ensures Split(c) == [c]
  {
    if c != "" {
      SplitSingle(c[1..]);
      assert c == [c[0]] + c[1..];
    }
  }

  lemma {:induction false} SplitJoined(cs: seq<string>)
    requires Unsplit(cs) && cs != []
    ensures Split(Joined(cs)) == cs
  {
    if |cs| == 1 {
      SplitSingle(cs[0]);
    } else {
      SplitJoined(cs[1..]);
      SplitAppend(cs[0], Joined(cs[1..]));
    }
  }

  lemma {:induction false} JoinedAppend(a: seq<string>, b: seq<string>)
    requires a != [] && b != []
    ensures Joined(a + b) == Joined(a) + "/" + Joined(b)
  {
    if |a| == 1 {
      assert (a + b)[1..] == b;
    } else {
      JoinedAppend(a[1..], b);
      assert (a + b)[1..] == a[1..] + b;
    }
  }

  lemma Slashes(a: string, b: string, c: string)
    ensures (a + "/" + b) + "/" + c == a + "/" + (b + "/" + c)
  {
  }

  lemma {:induction false} SplitJoinedAppend(cs: seq<string>, s: string)
    requires Unsplit(cs) && cs != []
    ensures Split(Joined(cs) + "/" + s) == cs + Split(s)
  {
    if |cs| == 1 {
      SplitAppend(cs[0], s);
    } else {
      var c, rest := cs[0], Joined(cs[1..]);
      SplitJoinedAppend(cs[1..], s);
      Slashes(c, rest, s);
      SplitAppend(c, rest + "/" + s);
      assert cs == [c] + cs[1..];
      assert [c] + (cs[1..] + Split(s)) == ([c] + cs[1..]) + Split(s);
    }
  }

  /** One joined path is a directory prefix of another exactly when its components are the
      other's first ones. */
  lemma JoinedPrefixIff(rs: seq<string>, cs: seq<string>)
    requires Unsplit(rs) && Unsplit(cs) && rs != []
    ensures Joined(rs) + "/" <= Joined(cs) <==> rs < cs
  {
    if Joined(rs) + "/" <= Joined(cs) {
      assert cs != [];
      var t := Joined(cs)[|Joined(rs) + "/"|..];
      assert Joined(cs) == Joined(rs) + "/" + t;
      SplitJoined(cs);
      SplitJoinedAppend(rs, t);
    }
    if rs < cs {
      var rest := cs[|rs|..];
      assert cs == rs + rest;
      JoinedAppend(rs, rest);
    }
  }

  // ---------------------------------------------------------------- cleaning

  /** What cleanPath does with one more component. `keepParent` says whether ".." above the
      root is kept or dropped, which differs between Qt versions. */
  function Push(stack: seq<string>, c: string, keepParent: bool): seq<string> {
    if c == "" || c == "." then stack
    else if c == ".." then
      if stack != [] && stack[|stack| - 1] != ".." then stack[..|stack| - 1]
      else if keepParent then stack + [".."]
      else stack
    else stack + [c]
  }

  function Folded(stack: seq<string>, cs: seq<string>, keepParent: bool): seq<string>
    decreases |cs|
  {
    if cs == [] then stack else Folded(Push(stack, cs[0], keepParent), cs[1..], keepParent)
  }

  predicate Plain(c: string) {
    c != "" && c != "." && c != ".."
  }

  /** Only plain components, after leading ".." if those are kept. */
  ghost predicate Clean(cs: seq<string>, keepParent: bool) {
    forall i :: 0 <= i < |cs| ==>
      Plain(cs[i]) || (keepParent && cs[i] == ".." && forall j :: 0 <= j < i ==> cs[j] == "..")
  }

  lemma {:induction false} FoldedIsClean(stack: seq<string>, cs: seq<string>, keepParent: bool)
    requires Clean(stack, keepParent) && Unsplit(stack) && Unsplit(cs)
    ensures Clean(Folded(stack, cs, keepParent), keepParent) && Unsplit(Folded(stack, cs, keepParent))
    decreases |cs|
  {
    if cs != [] {
      FoldedIsClean(Push(stack, cs[0], keepParent), cs[1..], keepParent);
    }
  }

  /** Cleaning changes nothing on what is clean. */
  lemma {:induction false} FoldedKeeps(stack: seq<string>, cs: seq<string>, keepParent: bool)
    requires Clean(stack + cs, keepParent)
    ensures Folded(stack, cs, keepParent) == stack + cs
    decreases |cs|
  {
    if cs != [] {
      var all := stack + cs;
      assert all[|stack|] == cs[0];
      assert stack != [] ==> all[|stack| - 1] == stack[|stack| - 1];
      assert (stack + [cs[0]]) + cs[1..] == all;
      FoldedKeeps(stack + [cs[0]], cs[1..], keepParent);
    } else {
      assert stack + [] == stack;
    }
  }

  lemma {:induction false} FoldedAppend(stack: seq<string>, a: seq<string>, b: seq<string>, keepParent: bool)
    ensures Folded(stack, a + b, keepParent) == Folded(Folded(stack, a, keepParent), b, keepParent)
    decreases |a|
  {
    if a == [] {
      assert [] + b == b;
    } else {
      FoldedAppend(Push(stack, a[0], keepParent), a[1..], b, keepParent);
      assert (a + b)[1..] == a[1..] + b;
    }
  }

  lemma FoldedOne(stack: seq<string>, a: seq<string>, c: string, keepParent: bool)
    ensures Folded(stack, a + [c], keepParent) == Push(Folded(stack, a, keepParent), c, keepParent)
  {
    FoldedAppend(stack, a, [c], keepParent);
    assert Folded(Push(Folded(stack, a, keepParent), c, keepParent), [], keepParent)
        == Push(Folded(stack, a, keepParent), c, keepParent);
  }

  /** What each kind of component adds to those before it: a plain one itself, an empty one or "."
      nothing, and ".." takes the last one away, unless there is none but kept "..". */
  lemma FoldedLast(a: seq<string>, c: string, keepParent: bool)
    ensures var before, after := Folded([], a, keepParent), Folded([], a + [c], keepParent);
      if Plain(c) then after == before + [c]
      else if c == ".." then
        if before != [] && before[|before| - 1] != ".." then exists last :: before == after + [last]
        else if keepParent then after == before + [".."]
        else after == before
      else after == before
  {
    var before := Folded([], a, keepParent);
    FoldedOne([], a, c, keepParent);
    if before != [] {
      assert before == before[..|before| - 1] + [before[|before| - 1]];
    }
  }

  /** ".." undoes the plain component before it, wherever the two stand. */
  lemma ParentUndoes(a: seq<string>, c: string, b: seq<string>, keepParent: bool)
    requires Plain(c)
    ensures Folded([], a + [c, ".."] + b, keepParent) == Folded([], a + b, keepParent)
  {
    var before := Folded([], a, keepParent);
    FoldedOne([], a, c, keepParent);
    FoldedOne([], a + [c], "..", keepParent);
    assert (before + [c])[..|before|] == before;
    assert (a + [c]) + [".."] == a + [c, ".."];
    FoldedAppend([], a + [c, ".."], b, keepParent);
    FoldedAppend([], a, b, keepParent);
  }

  // ---------------------------------------------------------------- characters

  ghost predicate Without(cs: seq<string>, ch: char) {
    forall i :: 0 <= i < |cs| ==> ch !in cs[i]
  }

  lemma {:induction false} SplitWithout(s: string, ch: char)
    requires ch != '/'
    ensures Without(Split(s), ch) <==> ch !in s
  {
    if s != "" {
      var rest := Split(s[1..]);
      SplitWithout(s[1..], ch);
      assert s == [s[0]] + s[1..];
      assert Split(s)[1..] == if s[0] == '/' then rest else rest[1..];
      assert Split(s)[0] == if s[0] == '/' then "" else [s[0]] + rest[0];
      assert Without(Split(s), ch) <==> ch !in Split(s)[0] && Without(Split(s)[1..], ch);
      assert Without(rest, ch) <==> ch !in rest[0] && Without(rest[1..], ch);
    }
  }

  lemma {:induction false} FoldedWithout(stack: seq<string>, cs: seq<string>, keepParent: bool, ch: char)
    requires ch != '.' && Without(stack, ch) && Without(cs, ch)
    ensures Without(Folded(stack, cs, keepParent), ch)
    decreases |cs|
  {
    if cs != [] {
      FoldedWithout(Push(stack, cs[0], keepParent), cs[1..], keepParent, ch);
    }
  }

  lemma {:induction false} JoinedWithout(cs: seq<string>, ch: char)
    requires ch != '/' && Without(cs, ch)
    ensures ch !in Joined(cs)
  {
    if |cs| > 1 {
      JoinedWithout(cs[1..], ch);
    }
  }
}
