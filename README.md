# syscallinfo in Dafny

A model of the syscall resolver from the Go package `syscallinfo`. A
syscall table maps an OS- and architecture-specific syscall number to a
`Syscall` record. The record holds the number, the user-readable name, the
entry point (the kernel function name) and the arguments in declaration
order, each with a `Context` tag. A `Resolver` wraps one table. It looks
records up by number (`Syscall`) or by entry point (`SyscallByEntry`), and
renders a call as text (`Repr`), for example `read(1, 0x00000002,
0x00000003)`. A value under the file-descriptor context is printed in
decimal. A value under any other context is printed with Go's `%#08x`.
A JSON context field decodes to `CtxFD` only when it is exactly the string
`"FD"`.

Modules:

- `Types` (types.dfy): `Context` (a newtype over `int`, like Go's named
  `int`), the constants `CtxNone = 0` and `CtxFD = 1`, the `Argument` and
  `Syscall` records, Go's `error` as `Error`, and the JSON context decoder,
  as a pure rule (`ContextOf`) plus the pointer-receiver method that writes
  the variable (`ContextVar.UnmarshalJSON`).
- `SyscallInfo` (syscallinfo.dfy): the table as `map<int, Syscall>`, the
  `Resolver` and its three operations, the per-value rendering `CtxRepr`,
  the reference definition `CallRepr` that `Repr` is proved against, and a reader
  (`ParseCall`) that recovers the argument values from a rendered call.
- `Fmt` (fmt.dfy): Go's `%d` and `%#08x` on a `uint64`, and a digit
  reader used to show that both forms keep the value.
- `Strings` (strings.dfy): `strings.TrimSuffix`, joining with a separator,
  the accumulator that `Repr`'s loop builds, and a splitter that undoes the
  join.
- `Fixtures` (fixtures.dfy): the records that the package tests use
  (3 is `read`/`sys_read` with contexts FD, NONE, NONE; 5 is `open`; 666
  is absent). Lemmas prove the exact strings the tests expect, and two client
  methods state what each resolver operation returns for them.

Go's `Syscall` returns `(Syscall, error)`. It is modelled as the pair
`Return(value, err)`, which keeps the zero `Syscall{}` returned beside an
error. Methods return both halves as two out-parameters.

`SyscallByEntry` ranges over a Go map, whose iteration order is
unspecified. The model loops over the set of keys not yet visited and picks
the next key with `:|`. Any matching record may therefore be returned, and
the contract says only what holds for every order.

syscallinfo.go:14-64 repeats types.go's `Syscall`, `Argument`, `Context`
and `UnmarshalJSON` word for word. They are modelled once, in `Types`.

Two facts about the Go code shape the rendering and the record:

- `%#08x` (syscallinfo.go:126) pads to at least 8 hex digits and never
  truncates. A value of 2^32 or more prints "0x" and its own digits, up to
  16 of them, with no zero padding (`CtxReprWidth`).
- `Syscall` (syscallinfo.go:16-28) holds no return-value context.

## Model

| member | source | states |
|---|---|---|
| `Types.ContextOf` | types.go:55-60 | The decoded string is `CtxFD` exactly when it is `"FD"` and `CtxNone` exactly when it is not; so the result is always one of the two constants |
| `Types.ContextOfIsExact` | types.go:55-60 | The comparison is exact: `"FD"` gives `CtxFD`; `"fd"`, `""` and `"FD "` give `CtxNone` |
| `Types.ContextVar.UnmarshalJSON` | types.go:50-62 | A JSON string gives a nil error and sets the variable to the context the string names; any other JSON value gives the error "context should be a string, got ..." and leaves the variable unchanged |
| `SyscallInfo.NewResolver` | syscallinfo.go:76-78 | The new resolver answers lookups from exactly the given table: a number succeeds iff it is a key, and yields that key's record |
| `SyscallInfo.Resolver.Syscall` | syscallinfo.go:81-87 | Succeeds iff n is a key of the table, and then yields `tbl[n]`; otherwise yields the empty record and the error "unknown syscall" |
| `SyscallInfo.LookupYieldsNumber` | syscallinfo.go:82-86 | For a table whose records sit under their own numbers (how the table generator writes them), a successful lookup of n yields a record with `num == n` |
| `SyscallInfo.Resolver.SyscallByEntry` | syscallinfo.go:91-98 | Succeeds iff some record has the entry point, including the empty name; on success yields a value of the table with that entry, which sits under its own number in a generated table and is the only match when entries are unique; on failure yields the empty record and "unknown syscall" |
| `SyscallInfo.CtxRepr` | syscallinfo.go:121-128 | A file descriptor renders as plain decimal digits without leading zeros; any other context renders as "0x" and at least 8 lower-case hex digits, with no zero padding once the value is 2^32 or more |
| `SyscallInfo.CtxReprRoundTrip` | syscallinfo.go:121-128 | Reading either rendering back under its context gives the value |
| `SyscallInfo.CtxReprWidth` | syscallinfo.go:126 | The hex form is exactly 10 characters iff the value is below 2^32; from 2^32 up its first digit is not '0' (no padding) and it has at most 18 characters; the decimal form has at most 20 digits |
| `SyscallInfo.CtxReprHasNoComma` | syscallinfo.go:121-128 | No rendering contains a comma, so the ", " separator is unambiguous |
| `SyscallInfo.ArgReprs` | syscallinfo.go:112-113 | One rendering per declared argument, and none of them contains the comma of the ", " separator the loop puts between them |
| `SyscallInfo.Resolver.Repr` | syscallinfo.go:103-117 | Unknown n gives "" and "unknown syscall", checked before the arity; fewer values than declared arguments gives "" and "invalid number of arguments"; otherwise a nil error and `name(` + the renderings joined by ", " + `)`, proved from the append-then-`TrimSuffix` loop |
| `SyscallInfo.CallReprUsesDeclaredArgs` | syscallinfo.go:108-113 | Only the first arity-many values matter: extra values are ignored, and calls agreeing on the declared positions render alike |
| `SyscallInfo.CallReprRoundTrip` | syscallinfo.go:111-116 | Reading a rendered call back recovers exactly the declared argument values |
| `SyscallInfo.CallReprInjective` | syscallinfo.go:111-116 | Two calls of one syscall render alike iff they agree on the declared argument positions |
| `SyscallInfo.CallReprShape` | syscallinfo.go:111-116 | A zero-argument syscall renders as `name()`; otherwise the text ends with the last argument's rendering and ")": no trailing separator |
| `Strings.TrimSuffix` | syscallinfo.go:115 | Removes one trailing occurrence of the suffix when present, and otherwise changes nothing |
| `Strings.TerminatedIsJoin` | syscallinfo.go:111-114 | The accumulator that appends `piece + ", "` for each piece equals the join followed by a single separator |
| `Strings.TrimTerminated` | syscallinfo.go:111-115 | Trimming one trailing separator off the accumulator gives the join, including the empty case |
| `Fmt.DecimalForm` | syscallinfo.go:124 | `%d` output is decimal digits, unpadded, at most 20 of them, and reads back as the value |
| `Fmt.Hex08Form` | syscallinfo.go:126 | `%#08x` output is "0x" and at least 8 lower-case hex digits, exactly 8 below 2^32, from 2^32 up unpadded (first digit not '0') and at most 16, and reads back as the value |
| `Fmt.Digits` | syscallinfo.go:124-126 | The digit string of a number in base 10 or 16 is non-empty, uses only digits of the base, and begins with '0' only for zero |
| `Fixtures.ReadCallText` | syscallinfo_test.go:101-107 | read with values 1, 2, 3 renders as `read(1, 0x00000002, 0x00000003)` |
| `Fixtures.OpenCallText` | syscallinfo_test.go:117-123 | open with values 1, 2, 3 renders as `open(0x00000001, 0x00000002, 0x00000003)` |

## Left out

- The context-handler registry (`ContextHandler`, `Handle`, `SetContextHandler`), `NewSyscallCall`, return-value rendering, `Output` and `String`: the tests and examples use this API, but syscallinfo.go does not contain it. With no code to check against, the model stops at `Repr`. The package's tests expect `Output(0)` to give the same text as `Repr`.
- Decoding JSON bytes with `encoding/json` is a library call. `UnmarshalJSON` starts from a value already decoded into "a string" or "not a string". Library quirks such as `null` decoding into an empty string are not modelled.
- The code generators (mksyscalltable.go, mksyscallinfo_linux.go), the Python scripts, the gen.go files and the generated per-architecture tables are file I/O and templating around external tools. The table is an arbitrary `map<int, Syscall>`. The `Fixtures` records stand in for the two tested entries.
- Go's `int` for syscall numbers and argument fields is modelled as Dafny's unbounded `int`. No arithmetic is done on these values, so their width does not matter. Argument values are `uint64` and are bounded.
- Aliasing of the table: Go's `Resolver` holds a reference to the map passed to `NewResolver` (syscallinfo.go:76-78), so a caller's later write to that map shows through the resolver. The model takes the table as an immutable `map` value and does not capture this. Neither the package nor its generated tables write to a table after building it.
