/** The resolver over one syscall table and the renderer of a call's
    textual representation, `name(a0, a1, ...)`. */
module SyscallInfo {
  import opened Types
  import opened Fmt
  import opened Strings

  /** The syscalls of one OS and architecture, keyed by number. */
  type SyscallTable = map<int, Syscall>

  const UnknownSyscall := "unknown syscall"
  const InvalidArgCount := "invalid number of arguments"

  /** The separator `Repr` puts between argument renderings. */
  const ArgSep := ", "

  /** Go's `(T, error)` result pair. */
  datatype Return<T> = Return(value: T, err: Error)

  datatype Option<T> = None | Some(value: T)

  /** Every record sits under its own number: the table generator writes
      each record under the key equal to its `Num` field. */
  ghost predicate KeyedByNumber(tbl: SyscallTable)
  {
    forall n :: n in tbl ==> tbl[n].num == n
  }

  /** No two records share an entry point. */
  ghost predicate EntriesUnique(tbl: SyscallTable)
  {
    forall a, b :: a in tbl && b in tbl && tbl[a].entry == tbl[b].entry ==> a == b
  }

  /** Some record in tbl has the entry point. */
  ghost predicate HasEntry(tbl: SyscallTable, entry: string)
  {
    exists n :: n in tbl && tbl[n].entry == entry
  }

  /** The contextualized rendering of one value: decimal for a file
      descriptor, Go's `%#08x` for every other context. */
  function CtxRepr(n: uint64, ctx: Context): (s: string)
    ensures |s| >= 1
    ensures ctx == CtxFD ==> AllDigits(s, 10) && (s[0] == '0' ==> s == "0")
    ensures ctx != CtxFD ==> |s| >= 10 && s[..2] == "0x" && AllDigits(s[2..], 16)
    ensures ctx != CtxFD && n >= 0x1_0000_0000 ==> s[2] != '0'
  {
    if ctx == CtxFD then
      DecimalForm(n);
      FormatDecimal(n)
    else
      Hex08Form(n);
      FormatHex08(n)
  }

  /** Reads a rendering back under its context. */
  function ParseCtxRepr(s: string, ctx: Context): nat
  {
    if ctx == CtxFD then ParseDigits(s, 10)
    else if |s| >= 2 then ParseDigits(s[2..], 16)
    else 0
  }

  /** The renderings of the first |params| values, each under its
      parameter's context: one per declared argument, none containing the
      comma that separates them. */
  function ArgReprs(args: seq<uint64>, params: seq<Argument>): (r: seq<string>)
    requires |args| >= |params|
    ensures |r| == |params|
    ensures forall i :: 0 <= i < |r| ==> ',' !in r[i]
  {
    RenderingsReadBack(args, params);
    seq(|params|, i requires 0 <= i < |params| => CtxRepr(args[i], params[i].context))
  }

  /** Every value's rendering under its parameter's context has no comma
      and reads back as the value. */
  lemma RenderingsReadBack(args: seq<uint64>, params: seq<Argument>)
    requires |args| >= |params|
    ensures forall i :: 0 <= i < |params| ==>
      ',' !in CtxRepr(args[i], params[i].context) &&
      ParseCtxRepr(CtxRepr(args[i], params[i].context), params[i].context) == args[i]
  {
    forall i | 0 <= i < |params|
      ensures ',' !in CtxRepr(args[i], params[i].context)
      ensures ParseCtxRepr(CtxRepr(args[i], params[i].context), params[i].context) == args[i]
    {
      CtxReprHasNoComma(args[i], params[i].context);
      CtxReprRoundTrip(args[i], params[i].context);
    }
  }

  /** What `Repr` promises for a resolved syscall with enough values:
      `name(a0, a1, ...)` with ", " between the argument renderings. */
  function CallRepr(sc: Syscall, args: seq<uint64>): string
    requires |args| >= |sc.args|
  {
    sc.name + "(" + Join(ArgSep, ArgReprs(args, sc.args)) + ")"
  }

  /** Reads a rendered call of sc back into the argument values it shows. */
  function ParseCall(s: string, sc: Syscall): Option<seq<int>>
  {
    var open := sc.name + "(";
    if |s| < |open| + 1 || s[..|open|] != open || s[|s| - 1] != ')' then None
    else
      var inner := s[|open|..|s| - 1];
      var pieces := if |sc.args| == 0 then (if inner == "" then [] else [inner])
                    else Split(inner, ArgSep);
      if |pieces| != |sc.args| then None
      else Some(seq(|pieces|, i requires 0 <= i < |pieces| => ParseCtxRepr(pieces[i], sc.args[i].context)))
  }

  /** A set of positive size has a member to choose. */
  lemma NonEmptyHasMember(s: set<int>)
    requires |s| > 0
    ensures exists x :: x in s
  {
    if forall x :: x !in s {
      assert false;
    }
  }

  /** Go's `Resolver`: read-only access to one syscall table. */
  datatype Resolver = Resolver(tbl: SyscallTable) {

    /** Go's `Resolver.Syscall`: the record under number n, or the empty
        record and "unknown syscall" when there is none. */
    function Syscall(n: int): (r: Return<Types.Syscall>)
      ensures r.err == Nil <==> n in tbl
      ensures r.err == Nil ==> r.value == tbl[n]
      ensures r.err != Nil ==> r.value == EmptySyscall && r.err == Err(UnknownSyscall)
    {
      if n in tbl then Return(tbl[n], Nil) else Return(EmptySyscall, Err(UnknownSyscall))
    }

    /** Go's `Resolver.SyscallByEntry`: scans the table in an unspecified
        order for a record with the entry point. */
    method SyscallByEntry(entry: string) returns (sc: Types.Syscall, err: Error)
      ensures err == Nil <==> HasEntry(tbl, entry)
      ensures err == Nil ==> sc in tbl.Values && sc.entry == entry
      ensures err == Nil && KeyedByNumber(tbl) ==> sc.num in tbl && tbl[sc.num] == sc
      ensures err == Nil && EntriesUnique(tbl) ==> forall n :: n in tbl && tbl[n].entry == entry ==> tbl[n] == sc
      ensures err != Nil ==> sc == EmptySyscall && err == Err(UnknownSyscall)
    {
      var unvisited := tbl.Keys;
      while |unvisited| > 0
        invariant unvisited <= tbl.Keys
        invariant forall n :: n in tbl && n !in unvisited ==> tbl[n].entry != entry
        decreases unvisited
      {
        NonEmptyHasMember(unvisited);
        var n :| n in unvisited;
        if tbl[n].entry == entry {
          return tbl[n], Nil;
        }
        unvisited := unvisited - {n};
      }
      return EmptySyscall, Err(UnknownSyscall);
    }

    /** Go's `Resolver.Repr`: resolves n, checks that enough values were
        given, and renders the call. */
    method Repr(n: int, args: seq<uint64>) returns (s: string, err: Error)
      ensures n !in tbl ==> s == "" && err == Err(UnknownSyscall)
      ensures n in tbl && |args| < |tbl[n].args| ==> s == "" && err == Err(InvalidArgCount)
      ensures n in tbl && |args| >= |tbl[n].args| ==> err == Nil && s == CallRepr(tbl[n], args)
    {
      var r := Syscall(n);
      if r.err != Nil {
        return "", r.err;
      }
      var sc := r.value;
      if |args| < |sc.args| {
        return "", Err(InvalidArgCount);
      }
      ghost var pieces := ArgReprs(args, sc.args);
      var argsStr := "";
      var i := 0;
      while i < |sc.args|
        invariant 0 <= i <= |sc.args|
        invariant argsStr == Terminated(pieces[..i], ArgSep)
      {
        TerminatedSnoc(pieces, ArgSep, i);
        argsStr := argsStr + CtxRepr(args[i], sc.args[i].context) + ArgSep;
        i := i + 1;
      }
      assert pieces[..i] == pieces;
      TrimTerminated(pieces, ArgSep);
      argsStr := TrimSuffix(argsStr, ArgSep);
      s := sc.name + "(" + argsStr + ")";
      err := Nil;
    }
  }

  /** Go's `NewResolver`: the resolver answers lookups from exactly tbl. */
  function NewResolver(tbl: SyscallTable): (r: Resolver)
    ensures forall n :: (r.Syscall(n).err == Nil <==> n in tbl)
    ensures forall n :: n in tbl ==> r.Syscall(n).value == tbl[n]
  {
    Resolver(tbl)
  }

  /** In a generated table, looking up n yields the record numbered n. */
  lemma LookupYieldsNumber(tbl: SyscallTable, n: int)
    requires KeyedByNumber(tbl)
    ensures Resolver(tbl).Syscall(n).err == Nil ==> Resolver(tbl).Syscall(n).value.num == n
  {
  }

  /** Both renderings read back as the value, under their context. */
  lemma CtxReprRoundTrip(n: uint64, ctx: Context)
    ensures ParseCtxRepr(CtxRepr(n, ctx), ctx) == n
  {
    if ctx == CtxFD {
      DecimalForm(n);
    } else {
      Hex08Form(n);
    }
  }

  /** The hexadecimal rendering is exactly "0x" and 8 digits for 32-bit
      values; for larger ones it is "0x" and n's digits with no zero
      padding, at most 16 of them. The decimal one is at most 20 digits. */
  lemma CtxReprWidth(n: uint64, ctx: Context)
    ensures ctx == CtxFD ==> 1 <= |CtxRepr(n, ctx)| <= 20
    ensures ctx != CtxFD ==> (|CtxRepr(n, ctx)| == 10 <==> n < 0x1_0000_0000)
    ensures ctx != CtxFD ==> |CtxRepr(n, ctx)| <= 18
    ensures ctx != CtxFD && n >= 0x1_0000_0000 ==> CtxRepr(n, ctx)[2] != '0'
  {
    if ctx == CtxFD {
      DecimalForm(n);
    } else {
      Hex08Form(n);
    }
  }

  /** No rendering contains a comma, so ", " separates them unambiguously. */
  lemma CtxReprHasNoComma(n: uint64, ctx: Context)
    ensures ',' !in CtxRepr(n, ctx)
  {
    var s := CtxRepr(n, ctx);
    if ctx == CtxFD {
      NoCommaInDigits(s, 10);
    } else {
      NoCommaInDigits(s[2..], 16);
      assert s == s[..2] + s[2..];
    }
  }

  /** A digit string holds no comma. */
  lemma NoCommaInDigits(s: string, base: nat)
    requires AllDigits(s, base)
    ensures ',' !in s
  {
  }

  /** Only the first |sc.args| values reach the rendering: extra ones are
      ignored, and calls agreeing on those render alike. */
  lemma CallReprUsesDeclaredArgs(sc: Syscall, a: seq<uint64>, b: seq<uint64>)
    requires |a| >= |sc.args| && |b| >= |sc.args|
    requires a[..|sc.args|] == b[..|sc.args|]
    ensures CallRepr(sc, a) == CallRepr(sc, b)
  {
    var k := |sc.args|;
    forall i | 0 <= i < k
      ensures a[i] == b[i]
    {
      assert a[..k][i] == a[i] && b[..k][i] == b[i];
    }
    assert ArgReprs(a, sc.args) == ArgReprs(b, sc.args);
  }

  /** The rendered call shows the declared values: reading it back recovers
      exactly the first |sc.args| of them. */
  lemma CallReprRoundTrip(sc: Syscall, args: seq<uint64>)
    requires |args| >= |sc.args|
    ensures ParseCall(CallRepr(sc, args), sc) == Some(args[..|sc.args|])
  {
    var s := CallRepr(sc, args);
    var open := sc.name + "(";
    var pieces := ArgReprs(args, sc.args);
    var inner := Join(ArgSep, pieces);
    assert s == open + inner + ")";
    assert s[..|open|] == open && s[|open|..|s| - 1] == inner;
    if |sc.args| > 0 {
      assert ArgSep[0] == ',';
      SplitJoin(ArgSep, pieces);
    }
    var split := if |sc.args| == 0 then (if inner == "" then [] else [inner]) else Split(inner, ArgSep);
    assert split == pieces;
    var values := seq(|pieces|, i requires 0 <= i < |pieces| => ParseCtxRepr(pieces[i], sc.args[i].context));
    assert ParseCall(s, sc) == Some(values);
    RenderingsReadBack(args, sc.args);
    assert forall i :: 0 <= i < |pieces| ==> values[i] == args[..|sc.args|][i];
    assert values == args[..|sc.args|];
  }

  /** Two calls of one syscall render alike exactly when they agree on the
      declared argument positions. */
  lemma CallReprInjective(sc: Syscall, a: seq<uint64>, b: seq<uint64>)
    requires |a| >= |sc.args| && |b| >= |sc.args|
    ensures CallRepr(sc, a) == CallRepr(sc, b) <==> a[..|sc.args|] == b[..|sc.args|]
  {
    if CallRepr(sc, a) == CallRepr(sc, b) {
      CallReprRoundTrip(sc, a);
      CallReprRoundTrip(sc, b);
    } else if a[..|sc.args|] == b[..|sc.args|] {
      CallReprUsesDeclaredArgs(sc, a, b);
    }
  }

  /** A syscall without arguments renders as `name()`; otherwise the text
      before ")" is the last argument's rendering, never a separator. */
  lemma CallReprShape(sc: Syscall, args: seq<uint64>)
    requires |args| >= |sc.args|
    ensures |sc.args| == 0 ==> CallRepr(sc, args) == sc.name + "()"
    ensures |sc.args| > 0 ==>
      HasSuffix(CallRepr(sc, args), CtxRepr(args[|sc.args| - 1], sc.args[|sc.args| - 1].context) + ")")
  {
    var pieces := ArgReprs(args, sc.args);
    if |sc.args| > 0 {
      var j := Join(ArgSep, pieces);
      var k := |sc.args| - 1;
      var last := pieces[k];
      assert last == CtxRepr(args[k], sc.args[k].context);
      JoinEndsWithLast(ArgSep, pieces);
      HasSuffixAround(sc.name + "(", j, last, ")");
    }
  }
}
