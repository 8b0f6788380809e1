/** Dotted paths: splitting at the dots, joining with them, and trimming what is between. */
module Paths {
  import opened Common

  /** `str::split('.')`: never empty. */
  function Split(s: string): (r: seq<string>)
    ensures r != []
    ensures forall i :: 0 <= i < |r| ==> '.' !in r[i]
  {
    if s == [] then [""]
    else
      var rest := Split(s[1..]);
      if s[0] == '.' then [""] + rest else [[s[0]] + rest[0]] + rest[1..]
  }

  function Dotted(segs: seq<string>): string
    requires segs != []
  {
    if |segs| == 1 then segs[0] else segs[0] + "." + Dotted(segs[1..])
  }

  /** Joining the parts with dots gives the path back. */
  lemma {:induction false} SplitJoins(s: string)
    ensures Dotted(Split(s)) == s
    decreases |s|
  {
    if s != [] {
      var rest := Split(s[1..]);
      SplitJoins(s[1..]);
      assert s == [s[0]] + s[1..];
      if s[0] == '.' {
        assert ([""] + rest)[1..] == rest;
      } else if |rest| > 1 {
        assert ([[s[0]] + rest[0]] + rest[1..])[1..] == rest[1..];
      }
    }
  }

  /** And splitting dotless parts joined with dots gives the parts back. */
  lemma {:induction false} JoinSplits(segs: seq<string>)
    requires segs != [] && forall i :: 0 <= i < |segs| ==> '.' !in segs[i]
    ensures Split(Dotted(segs)) == segs
    decreases |segs|, |segs[0]|
  {
    var path := Dotted(segs);
    if segs[0] != "" {
      var shorter := [segs[0][1..]] + segs[1..];
      assert segs[0][0] in segs[0];
      JoinSplits(shorter);
      assert shorter[1..] == segs[1..];
      assert path == [segs[0][0]] + Dotted(shorter);
      assert segs[0] == [segs[0][0]] + segs[0][1..];
      assert path[1..] == Dotted(shorter);
    } else if |segs| > 1 {
      JoinSplits(segs[1..]);
      assert path == ['.'] + Dotted(segs[1..]);
      assert path[1..] == Dotted(segs[1..]);
      assert segs == [""] + segs[1..];
    }
  }

  // ===== trimming =====

  ghost predicate Blank(s: string) {
    forall c :: c in s ==> IsWhitespace(c)
  }

  /** No whitespace at either end. */
  predicate IsTrimmed(s: string) {
    s != "" ==> !IsWhitespace(s[0]) && !IsWhitespace(s[|s| - 1])
  }

  lemma {:induction false} TrimmedStart(s: string) returns (a: string)
    ensures s == a + TrimStart(s) && Blank(a)
    decreases |s|
  {
    a := "";
    if s != "" && IsWhitespace(s[0]) {
      var rest := TrimmedStart(s[1..]);
      a := [s[0]] + rest;
      assert s == [s[0]] + s[1..];
    }
  }

  lemma {:induction false} TrimmedEnd(s: string) returns (b: string)
    ensures s == TrimEnd(s) + b && Blank(b)
    decreases |s|
  {
    b := "";
    if s != "" && IsWhitespace(s[|s| - 1]) {
      var rest := TrimmedEnd(s[..|s| - 1]);
      b := rest + [s[|s| - 1]];
      assert s == s[..|s| - 1] + [s[|s| - 1]];
    }
  }

  lemma BothTrimmed(s: string)
    ensures IsTrimmed(Trim(s))
  {
    var rest := TrimStart(s);
    assert TrimEnd(rest) <= rest;
  }

  lemma WhatIsTrimmed(s: string) returns (a: string, b: string)
    ensures s == a + Trim(s) + b && Blank(a) && Blank(b)
  {
    a := TrimmedStart(s);
    b := TrimmedEnd(TrimStart(s));
  }

  /** Trimming takes the whitespace off both ends, all of it and nothing else. */
  lemma TrimExact(s: string)
    ensures IsTrimmed(Trim(s))
    ensures exists a, b :: s == a + Trim(s) + b && Blank(a) && Blank(b)
  {
    BothTrimmed(s);
    var a, b := WhatIsTrimmed(s);
  }

  /** So nothing is left of a text iff it is all whitespace. */
  lemma BlankTrimsToNothing(s: string)
    ensures Trim(s) == "" <==> Blank(s)
  {
    TrimExact(s);
    var a, b :| s == a + Trim(s) + b && Blank(a) && Blank(b);
    if Trim(s) != "" {
      assert Trim(s)[0] == s[|a|];
      assert s[|a|] in s;
    }
  }

  /** What `str::trim` takes for whitespace. */
  lemma WhitespaceIs(c: char)
    ensures IsWhitespace(c) <==>
      || 9 <= c as int <= 13 || 8192 <= c as int <= 8202
      || c as int in {32, 133, 160, 5760, 8232, 8233, 8239, 8287, 12288}
  {
  }
}
