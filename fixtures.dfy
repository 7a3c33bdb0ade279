/** The syscalls the resolver tests use from the i386 Linux table: 3 is
    `read` with entry `sys_read` (a file descriptor, then two plain values),
    5 is `open` (three plain values), and 666 is absent. The tests pin only
    those numbers, the entry `sys_read`, the contexts and the rendered
    texts; the signatures, reference counts and the entry `sys_open` are
    illustrative and do not affect any rendering. */
module Fixtures {
  import opened Types
  import opened Fmt
  import opened Strings
  import opened SyscallInfo

  const Read := Syscall(3, "read", "sys_read", [
    Argument(0, "unsigned int fd", CtxFD),
    Argument(1, "char __user * buf", CtxNone),
    Argument(0, "size_t count", CtxNone)])

  const Open := Syscall(5, "open", "sys_open", [
    Argument(1, "const char __user * filename", CtxNone),
    Argument(0, "int flags", CtxNone),
    Argument(0, "umode_t mode", CtxNone)])

  const Table: SyscallTable := map[3 := Read, 5 := Open]

  /** A one-digit value renders as one decimal digit, or as seven zeros
      and the digit after "0x". */
  lemma OneDigit(n: uint64, c: char)
    requires n < 10 && c == ('0' as int + n) as char
    ensures CtxRepr(n, CtxFD) == [c]
    ensures CtxRepr(n, CtxNone) == "0x0000000" + [c]
  {
    assert DigitChar(n) == c;
    assert Digits(n, 10) == [c] && Digits(n, 16) == [c];
    assert Fill(7, '0') == "0000000";
  }

  /** The three renderings of (1, 2, 3) under the given contexts. */
  lemma Pieces(args: seq<uint64>, params: seq<Argument>, first: string)
    requires args == [1, 2, 3]
    requires |params| == 3 && params[1].context == CtxNone && params[2].context == CtxNone
    requires params[0].context == CtxFD ==> first == "1"
    requires params[0].context == CtxNone ==> first == "0x00000001"
    requires params[0].context == CtxFD || params[0].context == CtxNone
    ensures ArgReprs(args, params) == [first, "0x00000002", "0x00000003"]
  {
    OneDigit(1, '1');
    OneDigit(2, '2');
    OneDigit(3, '3');
    var pieces := ArgReprs(args, params);
    assert pieces[0] == first && pieces[1] == "0x00000002" && pieces[2] == "0x00000003";
  }

  /** The rendering of (1, 2, 3) for a syscall with three arguments, the
      first rendered as first. */
  lemma ThreeArgText(sc: Syscall, args: seq<uint64>, first: string)
    requires args == [1, 2, 3]
    requires |sc.args| == 3 && sc.args[1].context == CtxNone && sc.args[2].context == CtxNone
    requires sc.args[0].context == CtxFD ==> first == "1"
    requires sc.args[0].context == CtxNone ==> first == "0x00000001"
    requires sc.args[0].context == CtxFD || sc.args[0].context == CtxNone
    ensures CallRepr(sc, args) == sc.name + "(" + first + ", 0x00000002, 0x00000003)"
  {
    calc {
      CallRepr(sc, args);
      sc.name + "(" + Join(ArgSep, ArgReprs(args, sc.args)) + ")";
      { Pieces(args, sc.args, first); }
      sc.name + "(" + Join(ArgSep, [first, "0x00000002", "0x00000003"]) + ")";
      { JoinThree(ArgSep, first, "0x00000002", "0x00000003"); }
      sc.name + "(" + (first + ", " + ("0x00000002" + ", " + "0x00000003")) + ")";
      sc.name + "(" + first + ", 0x00000002, 0x00000003)";
    }
  }

  /** `read(1, 2, 3)` renders as `read(1, 0x00000002, 0x00000003)`. */
  lemma ReadCallText(args: seq<uint64>)
    requires args == [1, 2, 3]
    ensures CallRepr(Read, args) == "read(1, 0x00000002, 0x00000003)"
  {
    assert "read" + "(" + "1" + ", 0x00000002, 0x00000003)" == "read(1, 0x00000002, 0x00000003)";
    ThreeArgText(Read, args, "1");
    assert Read.name == "read";
  }

  /** `open(1, 2, 3)` renders as `open(0x00000001, 0x00000002, 0x00000003)`. */
  lemma OpenCallText(args: seq<uint64>)
    requires args == [1, 2, 3]
    ensures CallRepr(Open, args) == "open(0x00000001, 0x00000002, 0x00000003)"
  {
    assert "open" + "(" == "open(";
    assert "open(" + "0x00000001" == "open(0x00000001";
    assert "open(0x00000001" + ", 0x00000002, 0x00000003)" == "open(0x00000001, 0x00000002, 0x00000003)";
    ThreeArgText(Open, args, "0x00000001");
    assert Open.name == "open";
  }

  /** What a caller of the resolver's lookups sees for the test table. */
  method LookupClient()
  {
    var r := NewResolver(Table);

    var found := r.Syscall(3);
    assert found.err == Nil && found.value.entry == "sys_read";
    var missing := r.Syscall(666);
    assert missing.err == Err(UnknownSyscall) && missing.value == EmptySyscall;

    var sc, err := r.SyscallByEntry("sys_read");
    assert forall v :: v in Table.Values ==> v == Read || v == Open;
    assert err == Nil ==> sc == Read;
    assert HasEntry(Table, "sys_read") by { assert Table[3].entry == "sys_read"; }
    assert err == Nil;
    var none, noneErr := r.SyscallByEntry("");
    assert noneErr == Err(UnknownSyscall) && none == EmptySyscall;
  }

  /** What a caller of the resolver's renderer sees for the test table. */
  method ReprClient()
  {
    var r := NewResolver(Table);

    var s, e := r.Repr(3, [1, 2, 3]);
    ReadCallText([1, 2, 3]);
    assert s == "read(1, 0x00000002, 0x00000003)" && e == Nil;
    s, e := r.Repr(5, [1, 2, 3, 4]);
    OpenCallText([1, 2, 3]);
    CallReprUsesDeclaredArgs(Open, [1, 2, 3, 4], [1, 2, 3]);
    assert s == "open(0x00000001, 0x00000002, 0x00000003)" && e == Nil;
    s, e := r.Repr(3, [1, 2]);
    assert s == "" && e == Err(InvalidArgCount);
    s, e := r.Repr(666, [1, 2, 3]);
    assert s == "" && e == Err(UnknownSyscall);
  }
}
