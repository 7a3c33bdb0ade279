/** The string operations the call renderer is built from: joining with a
    separator, the append-then-trim loop's accumulator, Go's
    `strings.TrimSuffix`, and a splitter that undoes the join. */
module Strings {

  /** suffix is a suffix of s (Go's `strings.HasSuffix`). */
  predicate HasSuffix(s: string, suffix: string)
  {
    |suffix| <= |s| && s[|s| - |suffix|..] == suffix
  }

  /** Go's `strings.TrimSuffix`: s without one trailing suffix, or s when
      it does not end with suffix. */
  function TrimSuffix(s: string, suffix: string): (r: string)
    ensures HasSuffix(s, suffix) ==> r + suffix == s
    ensures !HasSuffix(s, suffix) ==> r == s
  {
    if HasSuffix(s, suffix) then s[..|s| - |suffix|] else s
  }

  /** The pieces with sep between neighbours (Go's `strings.Join`). */
  function Join(sep: string, pieces: seq<string>): string
  {
    if |pieces| == 0 then ""
    else if |pieces| == 1 then pieces[0]
    else pieces[0] + sep + Join(sep, pieces[1..])
  }

  /** The pieces, each followed by sep: what a loop appending
      `piece + sep` builds. */
  function Terminated(pieces: seq<string>, sep: string): string
  {
    if pieces == [] then ""
    else Terminated(pieces[..|pieces| - 1], sep) + pieces[|pieces| - 1] + sep
  }

  /** Appending one more piece and sep extends the accumulator. */
  lemma TerminatedSnoc(pieces: seq<string>, sep: string, i: nat)
    requires i < |pieces|
    ensures Terminated(pieces[..i + 1], sep) == Terminated(pieces[..i], sep) + pieces[i] + sep
  {
    assert pieces[..i + 1][..i] == pieces[..i];
  }

  /** Splitting the first piece off the accumulator. */
  lemma {:induction false} TerminatedCons(pieces: seq<string>, sep: string)
    requires |pieces| >= 1
    ensures Terminated(pieces, sep) == pieces[0] + sep + Terminated(pieces[1..], sep)
    decreases |pieces|
  {
    if |pieces| > 1 {
      var init := pieces[..|pieces| - 1];
      TerminatedCons(init, sep);
      assert init[1..] == pieces[1..][..|pieces[1..]| - 1];
    } else {
      assert pieces[..0] == [] && pieces[1..] == [];
    }
  }

  /** A non-empty accumulator is the join followed by one separator. */
  lemma {:induction false} TerminatedIsJoin(pieces: seq<string>, sep: string)
    requires |pieces| >= 1
    ensures Terminated(pieces, sep) == Join(sep, pieces) + sep
    decreases |pieces|
  {
    TerminatedCons(pieces, sep);
    if |pieces| == 1 {
      assert pieces[1..] == [];
    } else {
      TerminatedIsJoin(pieces[1..], sep);
    }
  }

  /** Trimming one trailing separator off the accumulator gives the join;
      with no pieces both are empty. */
  lemma TrimTerminated(pieces: seq<string>, sep: string)
    ensures TrimSuffix(Terminated(pieces, sep), sep) == Join(sep, pieces)
  {
    if |pieces| >= 1 {
      var j := Join(sep, pieces);
      TerminatedIsJoin(pieces, sep);
      assert (j + sep)[|j + sep| - |sep|..] == sep;
      assert (j + sep)[..|j + sep| - |sep|] == j;
    }
  }

  /** The join of the pieces ends with the last piece: no separator trails. */
  lemma {:induction false} JoinEndsWithLast(sep: string, pieces: seq<string>)
    requires |pieces| >= 1
    ensures HasSuffix(Join(sep, pieces), pieces[|pieces| - 1])
    decreases |pieces|
  {
    if |pieces| > 1 {
      var j, rest := Join(sep, pieces), Join(sep, pieces[1..]);
      JoinEndsWithLast(sep, pieces[1..]);
      var last := pieces[|pieces| - 1];
      assert j == pieces[0] + sep + rest;
      assert j[|j| - |last|..] == rest[|rest| - |last|..];
    }
  }

  /** Joining three pieces. */
  lemma JoinThree(sep: string, a: string, b: string, c: string)
    ensures Join(sep, [a, b, c]) == a + sep + (b + sep + c)
  {
    assert [a, b, c][1..] == [b, c] && [b, c][1..] == [c];
    assert Join(sep, [b, c]) == b + sep + c;
  }

  /** A suffix of the middle part stays a suffix once text is put around it. */
  lemma HasSuffixAround(before: string, s: string, suffix: string, after: string)
    requires HasSuffix(s, suffix)
    ensures HasSuffix(before + s + after, suffix + after)
  {
    var t := before + s + after;
    assert t[|t| - |suffix + after|..] == s[|s| - |suffix|..] + after;
  }

  /** s cut at every occurrence of sep, scanning from the left. */
  function Split(s: string, sep: string): (r: seq<string>)
    requires |sep| > 0
    ensures |r| >= 1
    decreases |s|
  {
    if s == [] then [""]
    else if |sep| <= |s| && s[..|sep|] == sep then [""] + Split(s[|sep|..], sep)
    else
      var rest := Split(s[1..], sep);
      [[s[0]] + rest[0]] + rest[1..]
  }

  /** A string without sep's first character is not cut. */
  lemma {:induction false} SplitPlain(p: string, sep: string)
    requires |sep| > 0 && sep[0] !in p
    ensures Split(p, sep) == [p]
    decreases |p|
  {
    if p != [] {
      assert p[0] != sep[0];
      assert p[0] in p;
      assert forall c :: c in p[1..] ==> c in p;
      SplitPlain(p[1..], sep);
      assert [p[0]] + p[1..] == p;
    }
  }

  /** A piece without sep's first character, then sep, is cut after the piece. */
  lemma {:induction false} SplitHead(p: string, sep: string, rest: string)
    requires |sep| > 0 && sep[0] !in p
    ensures Split(p + sep + rest, sep) == [p] + Split(rest, sep)
    decreases |p|
  {
    var s := p + sep + rest;
    if p == [] {
      assert s == sep + rest && s[..|sep|] == sep && s[|sep|..] == rest;
    } else {
      assert s[0] == p[0] && p[0] in p && p[0] != sep[0];
      assert !(|sep| <= |s| && s[..|sep|] == sep);
      assert forall c :: c in p[1..] ==> c in p;
      SplitHead(p[1..], sep, rest);
      assert s[1..] == p[1..] + sep + rest;
      assert [p[0]] + p[1..] == p;
    }
  }

  /** Splitting undoes joining when no piece contains sep's first character. */
  lemma {:induction false} SplitJoin(sep: string, pieces: seq<string>)
    requires |sep| > 0 && |pieces| >= 1
    requires forall i :: 0 <= i < |pieces| ==> sep[0] !in pieces[i]
    ensures Split(Join(sep, pieces), sep) == pieces
    decreases |pieces|
  {
    if |pieces| == 1 {
      SplitPlain(pieces[0], sep);
    } else {
      SplitJoin(sep, pieces[1..]);
      SplitHead(pieces[0], sep, Join(sep, pieces[1..]));
      assert [pieces[0]] + pieces[1..] == pieces;
    }
  }
}
