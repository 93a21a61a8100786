/** The seccomp filter generator (`src/seccomp.rs`): a compiler from a deny-list to classic BPF, with the
    interpreter that gives its output a meaning. */
module Seccomp {

  newtype u8 = x: int | 0 <= x < 256

  const BPF_LD: bv16 := 0x00
  const BPF_JMP: bv16 := 0x05
  const BPF_RET: bv16 := 0x06
  const BPF_W: bv16 := 0x00
  const BPF_ABS: bv16 := 0x20
  const BPF_JEQ: bv16 := 0x10
  const BPF_K: bv16 := 0x00

  const SECCOMP_RET_KILL_PROCESS: bv32 := 0x8000_0000
  const SECCOMP_RET_ERRNO: bv32 := 0x0005_0000
  const SECCOMP_RET_ALLOW: bv32 := 0x7fff_0000
  const SECCOMP_RET_DATA_MASK: bv32 := 0x0000_ffff
  const EPERM: bv32 := 1

  const OFFSET_NR: bv32 := 0
  const OFFSET_ARCH: bv32 := 4
  const AUDIT_ARCH_X86_64: bv32 := 0xC000_003E

  /** `BLOCKED_SYSCALLS`. System call numbers are the bits of a 32-bit word, so the cast from `i32` is identity. */
  const BLOCKED_SYSCALLS: seq<bv32> :=
    [101, 103, 154, 155, 161, 163, 164, 165, 166, 167, 168, 169, 170, 171, 172, 173, 175, 176, 179, 246, 248, 249,
     250, 298, 313, 320, 321]

  datatype SockFilter = SockFilter(code: bv16, jt: u8, jf: u8, k: bv32)

  function Stmt(code: bv16, k: bv32): SockFilter { SockFilter(code, 0, 0, k) }

  function Jump(code: bv16, k: bv32, jt: u8, jf: u8): SockFilter { SockFilter(code, jt, jf, k) }

  // ---------------------------------------------------------------- the generator

  function Header(): seq<SockFilter> {
    [Stmt(BPF_LD | BPF_W | BPF_ABS, OFFSET_ARCH),
     Jump(BPF_JMP | BPF_JEQ | BPF_K, AUDIT_ARCH_X86_64, 1, 0),
     Stmt(BPF_RET | BPF_K, SECCOMP_RET_KILL_PROCESS),
     Stmt(BPF_LD | BPF_W | BPF_ABS, OFFSET_NR)]
  }

  const ERRNO_RET: bv32 := SECCOMP_RET_ERRNO | (EPERM & SECCOMP_RET_DATA_MASK)

  /** The two instructions that deny one system call. */
  function CheckOf(nr: bv32): seq<SockFilter> {
    [Jump(BPF_JMP | BPF_JEQ | BPF_K, nr, 0, 1), Stmt(BPF_RET | BPF_K, ERRNO_RET)]
  }

  function Checks(deny: seq<bv32>): seq<SockFilter> {
    if deny == [] then [] else Checks(deny[..|deny| - 1]) + CheckOf(deny[|deny| - 1])
  }

  function Program(deny: seq<bv32>): seq<SockFilter> {
    Header() + Checks(deny) + [Stmt(BPF_RET | BPF_K, SECCOMP_RET_ALLOW)]
  }

  method BuildProgram(deny: seq<bv32>) returns (prog: seq<SockFilter>)
    ensures prog == Program(deny)
  {
    prog := Header();
    for i := 0 to |deny|
      invariant prog == Header() + Checks(deny[..i])
    {
      assert deny[..i + 1][..i] == deny[..i];
      prog := prog + [Jump(BPF_JMP | BPF_JEQ | BPF_K, deny[i], 0, 1)];
      prog := prog + [Stmt(BPF_RET | BPF_K, ERRNO_RET)];
    }
    assert deny[..|deny|] == deny;
    prog := prog + [Stmt(BPF_RET | BPF_K, SECCOMP_RET_ALLOW)];
  }

  // ---------------------------------------------------------------- the interpreter

  /** The fields of `seccomp_data` a filter can load here. */
  datatype Call = Call(nr: bv32, arch: bv32)

  datatype Verdict = Return(action: bv32) | Fault

  /** Runs a program from `pc` with accumulator `acc`. Leaving the program, an unknown instruction or an unknown
      offset is a fault. */
  function Exec(prog: seq<SockFilter>, call: Call, pc: nat, acc: bv32): Verdict
    decreases |prog| - pc
  {
    if pc >= |prog| then Fault
    else
      var f := prog[pc];
      if f.code == BPF_LD | BPF_W | BPF_ABS then
        if f.k == OFFSET_NR then Exec(prog, call, pc + 1, call.nr)
        else if f.k == OFFSET_ARCH then Exec(prog, call, pc + 1, call.arch)
        else Fault
      else if f.code == BPF_JMP | BPF_JEQ | BPF_K then
        Exec(prog, call, pc + 1 + (if acc == f.k then f.jt else f.jf) as nat, acc)
      else if f.code == BPF_RET | BPF_K then Return(f.k)
      else Fault
  }

  // ---------------------------------------------------------------- correctness

  lemma {:induction false} ChecksAt(deny: seq<bv32>, i: nat)
    requires i < |deny|
    ensures |Checks(deny)| == 2 * |deny|
    ensures Checks(deny)[2 * i..2 * i + 2] == CheckOf(deny[i])
  {
    var init := deny[..|deny| - 1];
    if init == [] {
    } else {
      ChecksAt(init, if i < |init| then i else 0);
    }
    if i < |init| {
      assert Checks(deny)[2 * i..2 * i + 2] == Checks(init)[2 * i..2 * i + 2];
    }
  }

  /** Where the instructions of a program lie. */
  lemma Layout(deny: seq<bv32>)
    ensures var p := Program(deny);
            && |p| == 2 * |deny| + 5
            && p[..4] == Header()
            && (forall i :: 0 <= i < |deny| ==>
                  p[4 + 2 * i] == CheckOf(deny[i])[0] && p[5 + 2 * i] == CheckOf(deny[i])[1])
            && p[|p| - 1] == Stmt(BPF_RET | BPF_K, SECCOMP_RET_ALLOW)
  {
    var p, c := Program(deny), Checks(deny);
    if deny != [] {
      ChecksAt(deny, 0);
    }
    forall i | 0 <= i < |deny| ensures p[4 + 2 * i] == CheckOf(deny[i])[0] && p[5 + 2 * i] == CheckOf(deny[i])[1] {
      ChecksAt(deny, i);
      assert c[2 * i] == c[2 * i..2 * i + 2][0] && c[2 * i + 1] == c[2 * i..2 * i + 2][1];
      assert p[4 + 2 * i] == c[2 * i] && p[5 + 2 * i] == c[2 * i + 1];
    }
  }

  /** From the checks for `deny[i..]` on, the number decides. */
  lemma {:induction false} ChecksDecide(deny: seq<bv32>, call: Call, i: nat)
    requires i <= |deny|
    ensures Exec(Program(deny), call, 4 + 2 * i, call.nr) ==
            Return(if call.nr in deny[i..] then ERRNO_RET else SECCOMP_RET_ALLOW)
    decreases |deny| - i
  {
    var p := Program(deny);
    Layout(deny);
    if i < |deny| {
      assert deny[i..] == [deny[i]] + deny[i + 1..];
      assert p[4 + 2 * i] == Jump(BPF_JMP | BPF_JEQ | BPF_K, deny[i], 0, 1);
      assert p[5 + 2 * i] == Stmt(BPF_RET | BPF_K, ERRNO_RET);
      if call.nr == deny[i] {
        assert Exec(p, call, 5 + 2 * i, call.nr) == Return(ERRNO_RET);
      } else {
        ChecksDecide(deny, call, i + 1);
        assert Exec(p, call, 4 + 2 * i, call.nr) == Exec(p, call, 4 + 2 * (i + 1), call.nr);
      }
    }
  }

  /** The filter means its deny-list: foreign architectures are killed, listed numbers get EPERM, everything else
      is allowed; no execution faults. */
  lemma FilterMeaning(deny: seq<bv32>, call: Call)
    ensures Exec(Program(deny), call, 0, 0) ==
            Return(if call.arch != AUDIT_ARCH_X86_64 then SECCOMP_RET_KILL_PROCESS
                   else if call.nr in deny then SECCOMP_RET_ERRNO | EPERM
                   else SECCOMP_RET_ALLOW)
  {
    var p := Program(deny);
    Layout(deny);
    assert p[0] == p[..4][0] && p[1] == p[..4][1] && p[2] == p[..4][2] && p[3] == p[..4][3];
    assert Exec(p, call, 0, 0) == Exec(p, call, 1, call.arch);
    ChecksDecide(deny, call, 0);
    assert deny[0..] == deny;
    if call.arch == AUDIT_ARCH_X86_64 {
      assert Exec(p, call, 1, call.arch) == Exec(p, call, 3, call.arch) == Exec(p, call, 4, call.nr);
    } else {
      assert Exec(p, call, 1, call.arch) == Exec(p, call, 2, call.arch);
    }
  }

  /** Both branches of every jump stay inside the program, and the last instruction returns. */
  lemma JumpsInRange(deny: seq<bv32>, pc: nat)
    requires pc < |Program(deny)|
    ensures var p := Program(deny);
            && (p[pc].code == BPF_JMP | BPF_JEQ | BPF_K ==>
                  pc + 1 + p[pc].jt as nat < |p| && pc + 1 + p[pc].jf as nat < |p|)
            && p[|p| - 1].code == BPF_RET | BPF_K
  {
    var p := Program(deny);
    Layout(deny);
    assert forall i :: 0 <= i < 4 ==> p[i] == p[..4][i];
    if 4 <= pc < |p| - 1 {
      var i := (pc - 4) / 2;
      assert pc == 4 + 2 * i || pc == 5 + 2 * i;
      assert p[4 + 2 * i] == CheckOf(deny[i])[0] && p[5 + 2 * i] == CheckOf(deny[i])[1];
    }
  }

  /** `program.len() as u16` keeps the length exactly when at most 32765 system calls are denied. */
  lemma LengthFits(deny: seq<bv32>)
    ensures |Program(deny)| == 2 * |deny| + 5
    ensures |Program(deny)| % 0x1_0000 == |Program(deny)| <==> |deny| <= 32765
  {
    Layout(deny);
  }

  /** The filter actually installed denies its 27 system calls and fits the length field. */
  lemma InstalledFilter(call: Call)
    ensures call.arch == AUDIT_ARCH_X86_64 ==>
              (Exec(Program(BLOCKED_SYSCALLS), call, 0, 0) == Return(SECCOMP_RET_ALLOW) <==>
               call.nr !in BLOCKED_SYSCALLS)
    ensures |Program(BLOCKED_SYSCALLS)| % 0x1_0000 == 59
  {
    FilterMeaning(BLOCKED_SYSCALLS, call);
    LengthFits(BLOCKED_SYSCALLS);
  }
}
