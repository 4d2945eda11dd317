/**
 Syscall rewriting: page zero, the two assembly stubs, and the path a rewritten
 `call *%rax` takes through them.
 */
module Trampoline {
  import opened Words
  import opened X86

  const NR_SYSCALLS: nat := 512
  const PAGE_SIZE: nat := 4096

  // ---- Page zero ----

  /** push %rax; movabs $hooker, %rax; jmp *%rax */
  function Stub(hooker: u64): (b: seq<u8>)
    ensures |b| == 13
  {
    [0x50, 0x48, 0xb8] + Bytes(hooker, 8) + [0xff, 0xe0]
  }

  /** The sled, the stub after it, and the rest of the fresh page. */
  function PageZero(hooker: u64): (p: seq<u8>)
    ensures |p| == PAGE_SIZE
  {
    seq(NR_SYSCALLS, _ => 0x90) + Stub(hooker) + seq(PAGE_SIZE - NR_SYSCALLS - 13, _ => 0)
  }

  method BuildStub(hooker: u64) returns (codes: seq<u8>)
    ensures codes == Stub(hooker)
  {
    codes := [0x50, 0x48, 0xb8];
    for i := 0 to 8
      invariant codes == [0x50, 0x48, 0xb8] + Bytes(hooker, 8)[..i]
    {
      ByteAt(hooker, 8, i);
      codes := codes + [hooker / Pow256(i) % 256];
    }
    assert Bytes(hooker, 8)[..8] == Bytes(hooker, 8);
    codes := codes + [0xff, 0xe0];
  }

  lemma PageIs(p: seq<u8>, hooker: u64)
    requires |p| == PAGE_SIZE
    requires forall j :: 0 <= j < NR_SYSCALLS ==> p[j] == 0x90
    requires forall j :: NR_SYSCALLS <= j < NR_SYSCALLS + 13 ==> p[j] == Stub(hooker)[j - NR_SYSCALLS]
    requires forall j :: NR_SYSCALLS + 13 <= j < PAGE_SIZE ==> p[j] == 0
    ensures p == PageZero(hooker)
  {
    hide Stub;
  }

  /** Fills a freshly mapped (zeroed) page in place, as setup_syscall_tracer does. */
  method SetupPageZero(page: array<u8>, hooker: u64)
    requires page.Length == PAGE_SIZE
    requires forall i :: 0 <= i < PAGE_SIZE ==> page[i] == 0
    modifies page
    ensures page[..] == PageZero(hooker)
  {
    hide PageZero, Stub;
    for i := 0 to NR_SYSCALLS
      invariant forall j :: 0 <= j < i ==> page[j] == 0x90
      invariant forall j :: i <= j < PAGE_SIZE ==> page[j] == 0
    {
      page[i] := 0x90;
    }
    var codes := BuildStub(hooker);
    for i := 0 to |codes|
      invariant forall j :: 0 <= j < NR_SYSCALLS ==> page[j] == 0x90
      invariant forall j :: NR_SYSCALLS <= j < NR_SYSCALLS + i ==> page[j] == codes[j - NR_SYSCALLS]
      invariant forall j :: NR_SYSCALLS + i <= j < PAGE_SIZE ==> page[j] == 0
    {
      page[NR_SYSCALLS + i] := codes[i];
    }
    PageIs(page[..], hooker);
  }

  /** Decoder for the byte sequences that matter here. */
  function Decode(b: seq<u8>): Decoded {
    if |b| >= 1 && b[0] == 0x90 then Decoded(Nop, 1)
    else if |b| >= 1 && b[0] == 0x50 then Decoded(Push(RAX), 1)
    else if |b| >= 10 && b[0] == 0x48 && b[1] == 0xb8 then
      assert Pow256(8) == TWO64;
      Decoded(MovImm(RAX, Value(b[2..10])), 10)
    else if |b| >= 2 && b[0] == 0xff && b[1] == 0xe0 then Decoded(JumpReg(RAX), 2)
    else if |b| >= 2 && b[0] == 0xff && b[1] == 0xd0 then Decoded(CallReg(RAX), 2)
    else if |b| >= 2 && b[0] == 0x0f && b[1] == 0x05 then Decoded(Syscall, 2)
    else Decoded(Bad, 0)
  }

  lemma DecodePage(hooker: u64)
    ensures forall a :: 0 <= a < NR_SYSCALLS ==> Decode(PageZero(hooker)[a..]) == Decoded(Nop, 1)
    ensures Decode(PageZero(hooker)[512..]) == Decoded(Push(RAX), 1)
    ensures Decode(PageZero(hooker)[513..]) == Decoded(MovImm(RAX, hooker), 10)
    ensures Decode(PageZero(hooker)[523..]) == Decoded(JumpReg(RAX), 2)
  {
    hide Bytes, Value;
    var p := PageZero(hooker);
    StubInPage(hooker);
    assert p[513..][2..10] == p[515..523];
    assert Pow256(8) == TWO64;
    ValueOfBytes(hooker, 8);
  }

  lemma StubInPage(hooker: u64)
    ensures var p := PageZero(hooker);
            && p[512] == 0x50 && p[513] == 0x48 && p[514] == 0xb8 && p[523] == 0xff && p[524] == 0xe0
            && p[515..523] == Bytes(hooker, 8)
  {
    hide Bytes;
    var p, stub := PageZero(hooker), Stub(hooker);
    assert forall j :: 0 <= j < 13 ==> p[512..525][j] == stub[j];
    assert p[512..525] == stub;
    assert stub[3..11] == Bytes(hooker, 8);
    assert p[515..523] == p[512..525][3..11];
  }

  // ---- The code image ----

  /** How the compiled syscall_hooker_cxx reaches call_hook: a tail jump, or a call from a frame
      of some words, after which the caller-saved registers hold anything. */
  datatype Wrapper = Tail | Framed(words: nat, junk: Regs)

  /** Where things are.  Code above page zero is addressed one instruction per address. */
  datatype Image = Image(hooker: u64, cxx: u64, orig: u64, site: u64, siteBytes: seq<u8>, wrapper: Wrapper)

  function HookerAsm(img: Image): (p: seq<Insn>)
    requires img.orig + 9 < TWO64
    ensures |p| == 24
  {
    [ Pop(RAX), CmpImm(15, RAX), JumpEqual(img.orig + 7), MovLoad(RCX, 0),
      Push(RBP), Mov(RBP, RSP), AlignStack,
      Push(RAX), Push(RDI), Push(RSI), Push(RDX), Push(R10), Push(R8), Push(R9),
      MovLoad(RDI, 48), MovLoad(RSI, 40), MovLoad(RDX, 32), MovLoad(RCX, 24), MovLoad(R8, 16), MovLoad(R9, 8),
      PushMem(0), Call(img.cxx), Leave, Ret ]
  }

  function OrigAsm(): (p: seq<Insn>)
    ensures |p| == 9
  {
    [ Mov(RAX, RDI), Mov(RDI, RSI), Mov(RSI, RDX), Mov(RDX, RCX), Mov(R10, R8), Mov(R8, R9),
      MovLoad(R9, 8), Syscall, Ret ]
  }

  function CxxAsm(img: Image): (p: seq<Insn>)
    ensures 1 <= |p| <= 6
  {
    match img.wrapper
    case Tail => [ Jump(img.orig) ]
    case Framed(w, junk) =>
      [ Lower(8 * w), PushMem(8 * w + 8), Call(img.orig), Clobber(junk), X86.Raise(8 * w + 8), Ret ]
  }

  predicate Apart(a: int, n: nat, b: int, m: nat) { a + n <= b || b + m <= a }

  predicate ImageOk(img: Image) {
    && PAGE_SIZE <= img.hooker && img.hooker + 24 < TWO64
    && PAGE_SIZE <= img.cxx && img.cxx + 6 < TWO64
    && PAGE_SIZE <= img.orig && img.orig + 9 < TWO64
    && PAGE_SIZE <= img.site && img.site + 2 < TWO64
    && Apart(img.hooker, 24, img.cxx, 6) && Apart(img.hooker, 24, img.orig, 9)
    && Apart(img.hooker, 24, img.site, 2) && Apart(img.cxx, 6, img.orig, 9)
    && Apart(img.cxx, 6, img.site, 2) && Apart(img.orig, 9, img.site, 2)
  }

  function Fetch(img: Image, rip: u64): Decoded
    requires ImageOk(img)
  {
    if rip < PAGE_SIZE then Decode(PageZero(img.hooker)[rip..])
    else if img.hooker <= rip < img.hooker + 24 then Decoded(HookerAsm(img)[rip - img.hooker], 1)
    else if img.cxx <= rip < img.cxx + |CxxAsm(img)| then Decoded(CxxAsm(img)[rip - img.cxx], 1)
    else if img.orig <= rip < img.orig + 9 then Decoded(OrigAsm()[rip - img.orig], 1)
    else if rip == img.site then Decode(img.siteBytes)
    else Decoded(Bad, 0)
  }

  // ---- Runs of any code ----

  type Code = u64 -> Decoded

  function Step(k: Kernel, f: Code, c: Cpu): Cpu {
    var d := f(c.rip);
    Exec(k, d.insn, c.(rip := ToU64(c.rip + d.len)))
  }

  function Run(k: Kernel, f: Code, c: Cpu, n: nat): Cpu
    decreases n
  {
    if n == 0 then c else Run(k, f, Step(k, f, c), n - 1)
  }

  lemma {:induction false} RunMore(k: Kernel, f: Code, c: Cpu, n: nat)
    ensures Run(k, f, c, n + 1) == Step(k, f, Run(k, f, c, n))
    decreases n
  {
    if n > 0 {
      RunMore(k, f, Step(k, f, c), n - 1);
    }
  }

  /** `c` is reached from `start` by executing instructions. */
  ghost predicate Reaches(k: Kernel, f: Code, start: Cpu, c: Cpu) {
    exists n: nat :: c == Run(k, f, start, n)
  }

  lemma Start(k: Kernel, f: Code, c: Cpu)
    ensures Reaches(k, f, c, c)
  {
    assert c == Run(k, f, c, 0);
  }

  lemma StepIs(k: Kernel, f: Code, c: Cpu, d: Decoded)
    requires f(c.rip) == d && c.rip + d.len < TWO64
    ensures Step(k, f, c) == Exec(k, d.insn, c.(rip := c.rip + d.len))
  {
    hide Exec;
  }

  lemma Next(k: Kernel, f: Code, start: Cpu, c: Cpu, d: Decoded) returns (c': Cpu)
    requires Reaches(k, f, start, c) && f(c.rip) == d && c.rip + d.len < TWO64
    ensures Reaches(k, f, start, c') && c' == Exec(k, d.insn, c.(rip := c.rip + d.len))
  {
    var n: nat :| c == Run(k, f, start, n);
    RunMore(k, f, start, n);
    StepIs(k, f, c, d);
    c' := Step(k, f, c);
  }

  predicate Mapped(f: Code, base: u64, code: seq<Insn>)
    requires base + |code| < TWO64
  {
    forall j :: 0 <= j < |code| ==> f(base + j) == Decoded(code[j], 1)
  }

  lemma PrologueFacts(f: Code, img: Image)
    requires ImageOk(img) && Mapped(f, img.hooker, HookerAsm(img))
    ensures f(img.hooker) == Decoded(Pop(RAX), 1) && f(img.hooker + 1) == Decoded(CmpImm(15, RAX), 1)
    ensures f(img.hooker + 2) == Decoded(JumpEqual(img.orig + 7), 1) && f(img.hooker + 3) == Decoded(MovLoad(RCX, 0), 1)
    ensures f(img.hooker + 4) == Decoded(Push(RBP), 1) && f(img.hooker + 5) == Decoded(Mov(RBP, RSP), 1)
    ensures f(img.hooker + 6) == Decoded(AlignStack, 1)
  {
    var h, p := img.hooker, HookerAsm(img);
    assert f(h + 0) == Decoded(p[0], 1) && f(h + 1) == Decoded(p[1], 1) && f(h + 2) == Decoded(p[2], 1);
    assert f(h + 3) == Decoded(p[3], 1) && f(h + 4) == Decoded(p[4], 1) && f(h + 5) == Decoded(p[5], 1);
    assert f(h + 6) == Decoded(p[6], 1);
  }

  lemma SaveFacts(f: Code, img: Image)
    requires ImageOk(img) && Mapped(f, img.hooker, HookerAsm(img))
    ensures f(img.hooker + 7) == Decoded(Push(RAX), 1) && f(img.hooker + 8) == Decoded(Push(RDI), 1)
    ensures f(img.hooker + 9) == Decoded(Push(RSI), 1) && f(img.hooker + 10) == Decoded(Push(RDX), 1)
    ensures f(img.hooker + 11) == Decoded(Push(R10), 1) && f(img.hooker + 12) == Decoded(Push(R8), 1)
    ensures f(img.hooker + 13) == Decoded(Push(R9), 1)
  {
    var h, p := img.hooker, HookerAsm(img);
    assert f(h + 7) == Decoded(p[7], 1) && f(h + 8) == Decoded(p[8], 1) && f(h + 9) == Decoded(p[9], 1);
    assert f(h + 10) == Decoded(p[10], 1) && f(h + 11) == Decoded(p[11], 1) && f(h + 12) == Decoded(p[12], 1);
    assert f(h + 13) == Decoded(p[13], 1);
  }

  lemma CallFacts(f: Code, img: Image)
    requires ImageOk(img) && Mapped(f, img.hooker, HookerAsm(img))
    ensures f(img.hooker + 14) == Decoded(MovLoad(RDI, 48), 1) && f(img.hooker + 15) == Decoded(MovLoad(RSI, 40), 1)
    ensures f(img.hooker + 16) == Decoded(MovLoad(RDX, 32), 1) && f(img.hooker + 17) == Decoded(MovLoad(RCX, 24), 1)
    ensures f(img.hooker + 18) == Decoded(MovLoad(R8, 16), 1) && f(img.hooker + 19) == Decoded(MovLoad(R9, 8), 1)
    ensures f(img.hooker + 20) == Decoded(PushMem(0), 1) && f(img.hooker + 21) == Decoded(Call(img.cxx), 1)
    ensures f(img.hooker + 22) == Decoded(Leave, 1) && f(img.hooker + 23) == Decoded(Ret, 1)
  {
    var h, p := img.hooker, HookerAsm(img);
    assert f(h + 14) == Decoded(p[14], 1) && f(h + 15) == Decoded(p[15], 1) && f(h + 16) == Decoded(p[16], 1);
    assert f(h + 17) == Decoded(p[17], 1) && f(h + 18) == Decoded(p[18], 1) && f(h + 19) == Decoded(p[19], 1);
    assert f(h + 20) == Decoded(p[20], 1) && f(h + 21) == Decoded(p[21], 1) && f(h + 22) == Decoded(p[22], 1);
    assert f(h + 23) == Decoded(p[23], 1);
  }

  lemma OrigFacts(f: Code, orig: u64)
    requires orig + 9 < TWO64 && Mapped(f, orig, OrigAsm())
    ensures f(orig) == Decoded(Mov(RAX, RDI), 1) && f(orig + 1) == Decoded(Mov(RDI, RSI), 1)
    ensures f(orig + 2) == Decoded(Mov(RSI, RDX), 1) && f(orig + 3) == Decoded(Mov(RDX, RCX), 1)
    ensures f(orig + 4) == Decoded(Mov(R10, R8), 1) && f(orig + 5) == Decoded(Mov(R8, R9), 1)
    ensures f(orig + 6) == Decoded(MovLoad(R9, 8), 1) && f(orig + 7) == Decoded(Syscall, 1)
    ensures f(orig + 8) == Decoded(Ret, 1)
  {
    var p := OrigAsm();
    assert f(orig + 0) == Decoded(p[0], 1) && f(orig + 1) == Decoded(p[1], 1) && f(orig + 2) == Decoded(p[2], 1);
    assert f(orig + 3) == Decoded(p[3], 1) && f(orig + 4) == Decoded(p[4], 1) && f(orig + 5) == Decoded(p[5], 1);
    assert f(orig + 6) == Decoded(p[6], 1) && f(orig + 7) == Decoded(p[7], 1) && f(orig + 8) == Decoded(p[8], 1);
  }

  /** Memory agrees outside the stretch of stack in use. */
  ghost predicate SameOutside(m: Mem, m': Mem, lo: int, hi: int) {
    forall x :: x < lo || x >= hi ==> m(x) == m'(x)
  }

  lemma Widen(m: Mem, m1: Mem, m2: Mem, lo: int, hi: int, lo1: int, hi1: int)
    requires SameOutside(m, m1, lo, hi) && SameOutside(m1, m2, lo1, hi1) && lo1 <= lo && hi1 <= hi
    ensures SameOutside(m, m2, lo1, hi)
  {
  }

  /** `c'` is `c` with `v` pushed and control at `rip`. */
  ghost predicate Pushed(c: Cpu, c': Cpu, v: u64, rip: u64) {
    && 8 <= c.regs.rsp
    && c'.regs == c.regs.(rsp := c.regs.rsp - 8)
    && c'.rip == rip && c'.equal == c.equal && c'.trace == c.trace
    && Load(c'.mem, c.regs.rsp - 8) == v
    && (forall b :: b >= c.regs.rsp ==> Load(c'.mem, b) == Load(c.mem, b))
    && SameOutside(c.mem, c'.mem, c.regs.rsp - 8, c.regs.rsp)
  }

  lemma PushValuePushes(c: Cpu, rip: u64, v: u64, target: u64)
    requires 8 <= c.regs.rsp
    ensures Pushed(c, PushValue(c.(rip := rip), v).(rip := target), v, target)
  {
    hide Load, Store;
    StoreBelow(c.mem, c.regs.rsp - 8, v);
  }

  // One lemma per instruction: what it does when no address wraps.

  lemma NextPush(k: Kernel, f: Code, start: Cpu, c: Cpu, r: Reg) returns (c': Cpu)
    requires Reaches(k, f, start, c) && f(c.rip) == Decoded(Push(r), 1)
    requires c.rip + 1 < TWO64 && 8 <= c.regs.rsp
    ensures Reaches(k, f, start, c') && Pushed(c, c', c.regs.Get(r), c.rip + 1)
  {
    hide Load, Reaches;
    var v, rip := c.regs.Get(r), c.rip + 1;
    c' := Next(k, f, start, c, Decoded(Push(r), 1));
    PushValuePushes(c, rip, v, rip);
    assert c' == PushValue(c.(rip := rip), v).(rip := rip);
  }

  lemma NextPushMem(k: Kernel, f: Code, start: Cpu, c: Cpu, disp: int) returns (c': Cpu)
    requires Reaches(k, f, start, c) && f(c.rip) == Decoded(PushMem(disp), 1)
    requires c.rip + 1 < TWO64 && 8 <= c.regs.rsp
    ensures Reaches(k, f, start, c') && Pushed(c, c', Load(c.mem, c.regs.rsp + disp), c.rip + 1)
  {
    hide Load, Reaches;
    var v, rip := Load(c.mem, c.regs.rsp + disp), c.rip + 1;
    c' := Next(k, f, start, c, Decoded(PushMem(disp), 1));
    PushValuePushes(c, rip, v, rip);
    assert c' == PushValue(c.(rip := rip), v).(rip := rip);
  }

  lemma NextCall(k: Kernel, f: Code, start: Cpu, c: Cpu, target: u64) returns (c': Cpu)
    requires Reaches(k, f, start, c) && f(c.rip) == Decoded(Call(target), 1)
    requires c.rip + 1 < TWO64 && 8 <= c.regs.rsp
    ensures Reaches(k, f, start, c') && Pushed(c, c', c.rip + 1, target)
  {
    hide Load, Reaches;
    var rip := c.rip + 1;
    c' := Next(k, f, start, c, Decoded(Call(target), 1));
    PushValuePushes(c, rip, rip, target);
    assert c' == PushValue(c.(rip := rip), rip).(rip := target);
  }

  lemma NextCallReg(k: Kernel, f: Code, start: Cpu, c: Cpu) returns (c': Cpu)
    requires Reaches(k, f, start, c) && f(c.rip) == Decoded(CallReg(RAX), 2)
    requires c.rip + 2 < TWO64 && 8 <= c.regs.rsp
    ensures Reaches(k, f, start, c') && Pushed(c, c', c.rip + 2, c.regs.rax)
  {
    hide Load, Reaches;
    var rip := c.rip + 2;
    c' := Next(k, f, start, c, Decoded(CallReg(RAX), 2));
    PushValuePushes(c, rip, rip, c.regs.rax);
    assert c' == PushValue(c.(rip := rip), rip).(rip := c.regs.rax);
  }

  lemma NextPop(k: Kernel, f: Code, start: Cpu, c: Cpu, v: u64) returns (c': Cpu)
    requires Reaches(k, f, start, c) && f(c.rip) == Decoded(Pop(RAX), 1)
    requires c.rip + 1 < TWO64 && c.regs.rsp + 8 < TWO64 && Load(c.mem, c.regs.rsp) == v
    ensures Reaches(k, f, start, c')
    ensures c' == c.(regs := c.regs.(rsp := c.regs.rsp + 8, rax := v), rip := c.rip + 1)
  {
    hide Load, Reaches;
    c' := Next(k, f, start, c, Decoded(Pop(RAX), 1));
  }

  lemma NextMov(k: Kernel, f: Code, start: Cpu, c: Cpu, dst: Reg, src: Reg) returns (c': Cpu)
    requires Reaches(k, f, start, c) && f(c.rip) == Decoded(Mov(dst, src), 1) && c.rip + 1 < TWO64
    ensures Reaches(k, f, start, c') && c' == c.(regs := c.regs.Set(dst, c.regs.Get(src)), rip := c.rip + 1)
  {
    hide Reaches;
    c' := Next(k, f, start, c, Decoded(Mov(dst, src), 1));
  }

  lemma NextMovLoad(k: Kernel, f: Code, start: Cpu, c: Cpu, r: Reg, disp: int, v: u64) returns (c': Cpu)
    requires Reaches(k, f, start, c) && f(c.rip) == Decoded(MovLoad(r, disp), 1)
    requires c.rip + 1 < TWO64 && Load(c.mem, c.regs.rsp + disp) == v
    ensures Reaches(k, f, start, c') && c' == c.(regs := c.regs.Set(r, v), rip := c.rip + 1)
  {
    hide Load, Reaches;
    c' := Next(k, f, start, c, Decoded(MovLoad(r, disp), 1));
  }

  /** cmp $15, %rax; je */
  lemma NextCompare(k: Kernel, f: Code, start: Cpu, c: Cpu, target: u64) returns (c': Cpu)
    requires Reaches(k, f, start, c) && c.rip + 2 < TWO64
    requires f(c.rip) == Decoded(CmpImm(15, RAX), 1) && f(c.rip + 1) == Decoded(JumpEqual(target), 1)
    ensures Reaches(k, f, start, c')
    ensures c' == c.(equal := c.regs.rax == 15, rip := if c.regs.rax == 15 then target else c.rip + 2)
  {
    hide Reaches;
    var d := Next(k, f, start, c, Decoded(CmpImm(15, RAX), 1));
    assert d == c.(equal := c.regs.rax == 15, rip := c.rip + 1);
    c' := Next(k, f, start, d, Decoded(JumpEqual(target), 1));
  }

  lemma NextAlign(k: Kernel, f: Code, start: Cpu, c: Cpu) returns (c': Cpu)
    requires Reaches(k, f, start, c) && f(c.rip) == Decoded(AlignStack, 1) && c.rip + 1 < TWO64
    ensures Reaches(k, f, start, c')
    ensures c' == c.(regs := c.regs.(rsp := c.regs.rsp - c.regs.rsp % 16), rip := c.rip + 1)
  {
    hide Reaches;
    c' := Next(k, f, start, c, Decoded(AlignStack, 1));
  }

  lemma NextRet(k: Kernel, f: Code, start: Cpu, c: Cpu, ret: u64) returns (c': Cpu)
    requires Reaches(k, f, start, c) && f(c.rip) == Decoded(Ret, 1)
    requires c.rip + 1 < TWO64 && c.regs.rsp + 8 < TWO64 && Load(c.mem, c.regs.rsp) == ret
    ensures Reaches(k, f, start, c')
    ensures c' == c.(regs := c.regs.(rsp := c.regs.rsp + 8), rip := ret)
  {
    hide Load, Reaches;
    c' := Next(k, f, start, c, Decoded(Ret, 1));
  }

  lemma NextLeave(k: Kernel, f: Code, start: Cpu, c: Cpu, rbp: u64) returns (c': Cpu)
    requires Reaches(k, f, start, c) && f(c.rip) == Decoded(Leave, 1)
    requires c.rip + 1 < TWO64 && c.regs.rbp + 8 < TWO64 && Load(c.mem, c.regs.rbp) == rbp
    ensures Reaches(k, f, start, c')
    ensures c' == c.(regs := c.regs.(rsp := c.regs.rbp + 8, rbp := rbp), rip := c.rip + 1)
  {
    hide Load, Reaches;
    c' := Next(k, f, start, c, Decoded(Leave, 1));
  }

  lemma NextSyscall(k: Kernel, f: Code, start: Cpu, c: Cpu) returns (c': Cpu)
    requires Reaches(k, f, start, c) && f(c.rip) == Decoded(Syscall, 1) && c.rip + 1 < TWO64
    ensures Reaches(k, f, start, c') && c' == Trap(k, c.(rip := c.rip + 1))
  {
    hide Reaches;
    c' := Next(k, f, start, c, Decoded(Syscall, 1));
  }

  lemma {:induction false} Sled(k: Kernel, f: Code, start: Cpu, c: Cpu)
    requires Reaches(k, f, start, c) && c.rip <= NR_SYSCALLS
    requires forall a: u64 :: a < NR_SYSCALLS ==> f(a) == Decoded(Nop, 1)
    ensures Reaches(k, f, start, c.(rip := NR_SYSCALLS))
    decreases NR_SYSCALLS - c.rip
  {
    if c.rip < NR_SYSCALLS {
      var c' := Next(k, f, start, c, Decoded(Nop, 1));
      assert c' == c.(rip := c.rip + 1);
      Sled(k, f, start, c');
      assert c'.(rip := NR_SYSCALLS) == c.(rip := NR_SYSCALLS);
    } else {
      assert c == c.(rip := NR_SYSCALLS);
    }
  }

  /** Registers and memory of `o` on entry to the hooker, the number saved on the stack. */
  ghost predicate AtHooker(o: Cpu, c: Cpu, ret: u64) {
    && 16 <= o.regs.rsp
    && c.regs == o.regs.(rax := c.regs.rax, rsp := o.regs.rsp - 16)
    && Load(c.mem, o.regs.rsp - 16) == o.regs.rax
    && Load(c.mem, o.regs.rsp - 8) == ret
    && SameOutside(o.mem, c.mem, o.regs.rsp - 16, o.regs.rsp)
    && c.trace == o.trace
  }

  /** The stub behind its push. */
  lemma StubJumps(k: Kernel, f: Code, start: Cpu, c: Cpu, hooker: u64) returns (c': Cpu)
    requires Reaches(k, f, start, c) && c.rip == 513
    requires f(513) == Decoded(MovImm(RAX, hooker), 10) && f(523) == Decoded(JumpReg(RAX), 2)
    ensures Reaches(k, f, start, c') && c' == c.(regs := c.regs.(rax := hooker), rip := hooker)
  {
    hide Reaches;
    c' := Next(k, f, start, c, Decoded(MovImm(RAX, hooker), 10));
    c' := Next(k, f, start, c', Decoded(JumpReg(RAX), 2));
  }

  /** From the rewritten call site through sled and stub. */
  lemma ToHooker(k: Kernel, f: Code, o: Cpu, hooker: u64) returns (c: Cpu)
    requires f(o.rip) == Decoded(CallReg(RAX), 2) && o.rip + 2 < TWO64
    requires o.regs.rax <= NR_SYSCALLS && 16 <= o.regs.rsp
    requires forall a: u64 :: a < NR_SYSCALLS ==> f(a) == Decoded(Nop, 1)
    requires f(512) == Decoded(Push(RAX), 1) && f(513) == Decoded(MovImm(RAX, hooker), 10)
    requires f(523) == Decoded(JumpReg(RAX), 2)
    ensures Reaches(k, f, o, c) && c.rip == hooker && AtHooker(o, c, o.rip + 2)
  {
    hide Load, Reaches;
    Start(k, f, o);
    c := NextCallReg(k, f, o, o);
    Sled(k, f, o, c);
    c := c.(rip := NR_SYSCALLS);
    c := NextPush(k, f, o, c, RAX);
    c := StubJumps(k, f, o, c, hooker);
  }

  /** 16-byte alignment of the stack below the saved frame pointer. */
  function Aligned(rsp: int): int { (rsp - 16) - (rsp - 16) % 16 }

  lemma AlignedBelow(rsp: int)
    ensures rsp - 32 < Aligned(rsp) <= rsp - 16 && Aligned(rsp) % 16 == 0
  {
  }

  /** The hooker behind its frame set-up: number in rax, frame pointer saved, stack aligned. */
  ghost predicate FrameBuilt(o: Cpu, c: Cpu, ret: u64) {
    var sp := o.regs.rsp;
    && c.regs == o.regs.(rcx := c.regs.rcx, rbp := c.regs.rbp, rsp := c.regs.rsp)
    && c.regs.rbp == sp - 16 && c.regs.rsp == Aligned(sp)
    && Load(c.mem, sp - 16) == o.regs.rbp
    && Load(c.mem, sp - 8) == ret
    && SameOutside(o.mem, c.mem, sp - 16, sp)
    && c.trace == o.trace
  }

  lemma FrameSetup(k: Kernel, f: Code, start: Cpu, o: Cpu, c0: Cpu, ret: u64, img: Image) returns (c: Cpu)
    requires ImageOk(img) && Mapped(f, img.hooker, HookerAsm(img))
    requires Reaches(k, f, start, c0) && c0.rip == img.hooker && AtHooker(o, c0, ret)
    requires o.regs.rax != 15 && 104 <= o.regs.rsp
    ensures Reaches(k, f, start, c) && c.rip == img.hooker + 7 && FrameBuilt(o, c, ret)
  {
    hide HookerAsm, Mapped, Load, Reaches;
    PrologueFacts(f, img);
    c := NextPop(k, f, start, c0, o.regs.rax);
    assert c.regs == o.regs.(rsp := o.regs.rsp - 8);
    c := NextCompare(k, f, start, c, img.orig + 7);
    c := NextMovLoad(k, f, start, c, RCX, 0, ret);
    c := NextPush(k, f, start, c, RBP);
    c := NextMov(k, f, start, c, RBP, RSP);
    c := NextAlign(k, f, start, c);
  }

  /** The seven values the hooker saves, as words below `top`. */
  ghost predicate Saved(o: Cpu, m: Mem, top: int) {
    && Load(m, top - 8) == o.regs.rax && Load(m, top - 16) == o.regs.rdi
    && Load(m, top - 24) == o.regs.rsi && Load(m, top - 32) == o.regs.rdx
    && Load(m, top - 40) == o.regs.r10 && Load(m, top - 48) == o.regs.r8
    && Load(m, top - 56) == o.regs.r9
  }

  /** The frame the hooker returns through. */
  ghost predicate Anchored(o: Cpu, c: Cpu, ret: u64) {
    var sp := o.regs.rsp;
    && c.regs.rbp == sp - 16
    && Load(c.mem, sp - 16) == o.regs.rbp
    && Load(c.mem, sp - 8) == ret
    && c.trace == o.trace
    && c.regs.rbx == o.regs.rbx && c.regs.r12 == o.regs.r12 && c.regs.r13 == o.regs.r13
    && c.regs.r14 == o.regs.r14 && c.regs.r15 == o.regs.r15
  }

  lemma PushTwo(k: Kernel, f: Code, start: Cpu, c: Cpu, r: Reg, r': Reg) returns (c': Cpu)
    requires Reaches(k, f, start, c) && c.rip + 2 < TWO64 && 16 <= c.regs.rsp && r' != RSP
    requires f(c.rip) == Decoded(Push(r), 1) && f(c.rip + 1) == Decoded(Push(r'), 1)
    ensures Reaches(k, f, start, c')
    ensures c'.regs == c.regs.(rsp := c.regs.rsp - 16) && c'.rip == c.rip + 2 && c'.trace == c.trace
    ensures Load(c'.mem, c.regs.rsp - 8) == c.regs.Get(r) && Load(c'.mem, c.regs.rsp - 16) == c.regs.Get(r')
    ensures forall b :: b >= c.regs.rsp ==> Load(c'.mem, b) == Load(c.mem, b)
    ensures SameOutside(c.mem, c'.mem, c.regs.rsp - 16, c.regs.rsp)
  {
    hide Load, Reaches;
    var d := NextPush(k, f, start, c, r);
    c' := NextPush(k, f, start, d, r');
  }

  lemma SaveFour(k: Kernel, f: Code, start: Cpu, c0: Cpu, img: Image) returns (c: Cpu)
    requires ImageOk(img) && Mapped(f, img.hooker, HookerAsm(img))
    requires Reaches(k, f, start, c0) && c0.rip == img.hooker + 7 && 56 <= c0.regs.rsp
    ensures Reaches(k, f, start, c) && c.rip == img.hooker + 11
    ensures c.regs == c0.regs.(rsp := c0.regs.rsp - 32) && c.trace == c0.trace
    ensures var top := c0.regs.rsp;
            && Load(c.mem, top - 8) == c0.regs.rax && Load(c.mem, top - 16) == c0.regs.rdi
            && Load(c.mem, top - 24) == c0.regs.rsi && Load(c.mem, top - 32) == c0.regs.rdx
            && SameOutside(c0.mem, c.mem, top - 32, top)
    ensures forall b :: b >= c0.regs.rsp ==> Load(c.mem, b) == Load(c0.mem, b)
  {
    hide HookerAsm, Mapped, Load, Reaches, SameOutside;
    SaveFacts(f, img);
    var top := c0.regs.rsp;
    var d := PushTwo(k, f, start, c0, RAX, RDI);
    c := PushTwo(k, f, start, d, RSI, RDX);
    Widen(c0.mem, d.mem, c.mem, top - 16, top, top - 32, top - 16);
  }

  lemma SaveArguments(k: Kernel, f: Code, start: Cpu, o: Cpu, c0: Cpu, ret: u64, img: Image) returns (c: Cpu)
    requires ImageOk(img) && Mapped(f, img.hooker, HookerAsm(img))
    requires Reaches(k, f, start, c0) && c0.rip == img.hooker + 7 && FrameBuilt(o, c0, ret)
    requires 104 <= o.regs.rsp
    ensures Reaches(k, f, start, c) && c.rip == img.hooker + 14
    ensures c.regs.rsp == Aligned(o.regs.rsp) - 56 && Anchored(o, c, ret)
    ensures Saved(o, c.mem, Aligned(o.regs.rsp))
    ensures SameOutside(o.mem, c.mem, Aligned(o.regs.rsp) - 56, o.regs.rsp)
  {
    hide HookerAsm, Mapped, Load, Reaches, Aligned, SameOutside;
    AlignedBelow(o.regs.rsp);
    SaveFacts(f, img);
    var sp, top := o.regs.rsp, Aligned(o.regs.rsp);
    var d := SaveFour(k, f, start, c0, img);
    Widen(o.mem, c0.mem, d.mem, sp - 16, sp, top - 32, top);
    var g := PushTwo(k, f, start, d, R10, R8);
    Widen(o.mem, d.mem, g.mem, top - 32, sp, top - 48, top - 32);
    c := NextPush(k, f, start, g, R9);
    Widen(o.mem, g.mem, c.mem, top - 48, sp, top - 56, top - 48);
  }

  /** The seven-argument C call of section 3.2.3 of the System V AMD64 ABI: six registers,
      the seventh argument above the return address. */
  ghost predicate AtCxx(o: Cpu, e: Cpu, ret: u64) {
    && e.regs.rdi == o.regs.rax && e.regs.rsi == o.regs.rdi && e.regs.rdx == o.regs.rsi
    && e.regs.rcx == o.regs.rdx && e.regs.r8 == o.regs.r10 && e.regs.r9 == o.regs.r8
    && Load(e.mem, e.regs.rsp + 8) == o.regs.r9
    && e.regs.rsp == Aligned(o.regs.rsp) - 72
    && Anchored(o, e, ret)
    && SameOutside(o.mem, e.mem, Aligned(o.regs.rsp) - 72, o.regs.rsp)
  }

  lemma LoadArguments(k: Kernel, f: Code, start: Cpu, o: Cpu, c0: Cpu, ret: u64, img: Image) returns (c: Cpu)
    requires ImageOk(img) && Mapped(f, img.hooker, HookerAsm(img))
    requires Reaches(k, f, start, c0) && c0.rip == img.hooker + 14
    requires c0.regs.rsp == Aligned(o.regs.rsp) - 56 && Anchored(o, c0, ret)
    requires Saved(o, c0.mem, Aligned(o.regs.rsp))
    ensures Reaches(k, f, start, c) && c.rip == img.hooker + 20 && c.mem == c0.mem && c.regs.rsp == c0.regs.rsp
    ensures c.regs.rdi == o.regs.rax && c.regs.rsi == o.regs.rdi && c.regs.rdx == o.regs.rsi
    ensures c.regs.rcx == o.regs.rdx && c.regs.r8 == o.regs.r10 && c.regs.r9 == o.regs.r8
    ensures Anchored(o, c, ret)
  {
    hide HookerAsm, Mapped, Load, Reaches, Aligned;
    CallFacts(f, img);
    c := NextMovLoad(k, f, start, c0, RDI, 48, o.regs.rax);
    c := NextMovLoad(k, f, start, c, RSI, 40, o.regs.rdi);
    c := NextMovLoad(k, f, start, c, RDX, 32, o.regs.rsi);
    c := NextMovLoad(k, f, start, c, RCX, 24, o.regs.rdx);
    c := NextMovLoad(k, f, start, c, R8, 16, o.regs.r10);
    c := NextMovLoad(k, f, start, c, R9, 8, o.regs.r8);
  }

  /** The hooker calls syscall_hooker_cxx with number and arguments in place, stack aligned. */
  lemma ToCxx(k: Kernel, f: Code, start: Cpu, o: Cpu, c0: Cpu, ret: u64, img: Image) returns (e: Cpu)
    requires ImageOk(img) && Mapped(f, img.hooker, HookerAsm(img))
    requires Reaches(k, f, start, c0) && c0.rip == img.hooker && AtHooker(o, c0, ret)
    requires o.regs.rax != 15 && 104 <= o.regs.rsp
    ensures Reaches(k, f, start, e) && e.rip == img.cxx && AtCxx(o, e, ret)
    ensures Load(e.mem, e.regs.rsp) == img.hooker + 22
    ensures (e.regs.rsp + 8) % 16 == 0
  {
    hide HookerAsm, Mapped, Load, Reaches, Aligned;
    AlignedBelow(o.regs.rsp);
    CallFacts(f, img);
    var c := FrameSetup(k, f, start, o, c0, ret, img);
    c := SaveArguments(k, f, start, o, c, ret, img);
    c := LoadArguments(k, f, start, o, c, ret, img);
    var d := NextPushMem(k, f, start, c, 0);
    e := NextCall(k, f, start, d, img.cxx);
  }

  // ---- call_orig_syscall and the way back ----

  /** Kernel writes that stay out of the stretch of stack in use. */
  predicate Clear(writes: map<int, u8>, lo: int, hi: int) {
    forall x :: x in writes ==> x < lo || x >= hi
  }

  lemma WrittenKeepsWord(m: Mem, writes: map<int, u8>, a: int, lo: int, hi: int)
    requires Clear(writes, lo, hi) && lo <= a && a + 8 <= hi
    ensures Load(Written(m, writes), a) == Load(m, a)
  {
    LoadFrame(Written(m, writes), m, a, 8);
  }

  /** The caller of call_orig_syscall asks for the kernel call `call`. */
  ghost predicate Asks(e: Cpu, call: KernelCall) {
    && e.regs.rdi == call.nr && e.regs.rsi == call.a1 && e.regs.rdx == call.a2 && e.regs.rcx == call.a3
    && e.regs.r8 == call.a4 && e.regs.r9 == call.a5 && Load(e.mem, e.regs.rsp + 8) == call.a6
  }

  function ArgumentRegs(r: Regs, call: KernelCall): Regs {
    r.(rdi := call.a1, rsi := call.a2, rdx := call.a3, r10 := call.a4, r8 := call.a5, r9 := call.a6)
  }

  /** The registers at the syscall instruction of call_orig_syscall are those of the original one. */
  lemma ToKernel(k: Kernel, f: Code, start: Cpu, e: Cpu, call: KernelCall, orig: u64) returns (c: Cpu)
    requires orig + 9 < TWO64 && Mapped(f, orig, OrigAsm())
    requires Reaches(k, f, start, e) && e.rip == orig && Asks(e, call)
    ensures Reaches(k, f, start, c)
    ensures c == e.(regs := ArgumentRegs(e.regs, call).(rax := call.nr), rip := orig + 7)
  {
    hide OrigAsm, Mapped, Load, Reaches;
    OrigFacts(f, orig);
    c := NextMov(k, f, start, e, RAX, RDI);
    c := NextMov(k, f, start, c, RDI, RSI);
    c := NextMov(k, f, start, c, RSI, RDX);
    c := NextMov(k, f, start, c, RDX, RCX);
    c := NextMov(k, f, start, c, R10, R8);
    c := NextMov(k, f, start, c, R8, R9);
    c := NextMovLoad(k, f, start, c, R9, 8, call.a6);
  }

  /** `q` is `e` returned from, the kernel having served `call` with `out`. */
  ghost predicate Served(e: Cpu, q: Cpu, call: KernelCall, out: Outcome) {
    && e.regs.rsp + 8 < TWO64
    && q.rip == Load(e.mem, e.regs.rsp)
    && q.regs.rax == out.result && q.regs.rsp == e.regs.rsp + 8 && q.regs.rbp == e.regs.rbp
    && q.regs.rbx == e.regs.rbx && q.regs.r12 == e.regs.r12 && q.regs.r13 == e.regs.r13
    && q.regs.r14 == e.regs.r14 && q.regs.r15 == e.regs.r15
    && |q.trace| == |e.trace| + 1 && q.trace[..|e.trace|] == e.trace && q.trace[|e.trace|].call == call
  }

  lemma OrigSyscall(k: Kernel, f: Code, start: Cpu, e: Cpu, call: KernelCall, out: Outcome, orig: u64) returns (q: Cpu)
    requires orig + 9 < TWO64 && Mapped(f, orig, OrigAsm())
    requires Reaches(k, f, start, e) && e.rip == orig && Asks(e, call)
    requires e.regs.rsp + 16 < TWO64
    requires k(|e.trace|, call, e.mem) == out && Clear(out.writes, e.regs.rsp, e.regs.rsp + 8)
    ensures Reaches(k, f, start, q) && Served(e, q, call, out)
    ensures q.mem == Written(e.mem, out.writes) && q.trace[|e.trace|].mem == e.mem
    ensures q.regs == ArgumentRegs(e.regs, call).(rax := q.regs.rax, rsp := q.regs.rsp, rcx := q.regs.rcx,
                                                  r11 := out.r11)
  {
    hide OrigAsm, Mapped, Load, Reaches;
    OrigFacts(f, orig);
    q := ToKernel(k, f, start, e, call, orig);
    assert CallOf(q.regs) == call;
    WrittenKeepsWord(e.mem, out.writes, e.regs.rsp, e.regs.rsp, e.regs.rsp + 8);
    q := NextSyscall(k, f, start, q);
    q := NextRet(k, f, start, q, Load(e.mem, e.regs.rsp));
  }

  /** The kernel answers `out` whatever lies in the given stretch of memory. */
  ghost predicate Blind(k: Kernel, n: nat, call: KernelCall, m: Mem, lo: int, hi: int, out: Outcome) {
    forall m': Mem :: SameOutside(m, m', lo, hi) ==> k(n, call, m') == out
  }

  lemma BlindAt(k: Kernel, n: nat, call: KernelCall, m: Mem, m': Mem, lo: int, hi: int, out: Outcome)
    requires Blind(k, n, call, m, lo, hi, out) && SameOutside(m, m', lo, hi)
    ensures k(n, call, m') == out
  {
  }

  lemma BlindInside(k: Kernel, n: nat, call: KernelCall, m: Mem, m': Mem, lo: int, hi: int, lo': int, hi': int,
                    out: Outcome)
    requires Blind(k, n, call, m, lo, hi, out) && SameOutside(m, m', lo, hi) && lo <= lo' && hi' <= hi
    ensures Blind(k, n, call, m', lo', hi', out)
  {
    forall x: Mem | SameOutside(m', x, lo', hi') ensures k(n, call, x) == out {
      assert SameOutside(m, x, lo, hi);
    }
  }

  /** Bytes of stack the wrapper uses below its own entry. */
  function FrameBytes(w: Wrapper): nat {
    match w
    case Tail => 0
    case Framed(words, _) => 8 * words + 16
  }

  /** syscall_hooker_cxx forwards its seven arguments to the default hook and returns its result. */
  lemma ThroughCxx(k: Kernel, f: Code, start: Cpu, e: Cpu, call: KernelCall, out: Outcome, img: Image) returns (q: Cpu)
    requires ImageOk(img) && Mapped(f, img.orig, OrigAsm()) && Mapped(f, img.cxx, CxxAsm(img))
    requires Reaches(k, f, start, e) && e.rip == img.cxx && Asks(e, call)
    requires FrameBytes(img.wrapper) <= e.regs.rsp && e.regs.rsp + 16 < TWO64
    requires Blind(k, |e.trace|, call, e.mem, e.regs.rsp - FrameBytes(img.wrapper), e.regs.rsp, out)
    requires Clear(out.writes, e.regs.rsp - FrameBytes(img.wrapper), e.regs.rsp + 16)
    ensures Reaches(k, f, start, q) && Served(e, q, call, out)
    ensures SameOutside(Written(e.mem, out.writes), q.mem, e.regs.rsp - FrameBytes(img.wrapper), e.regs.rsp)
    ensures SameOutside(e.mem, q.trace[|e.trace|].mem, e.regs.rsp - FrameBytes(img.wrapper), e.regs.rsp)
    ensures img.wrapper.Tail? ==>
              q.regs == ArgumentRegs(e.regs, call).(rax := q.regs.rax, rsp := q.regs.rsp, rcx := q.regs.rcx,
                                                    r11 := out.r11)
  {
    hide Load, Reaches;
    match img.wrapper {
      case Tail =>
        assert f(img.cxx + 0) == Decoded(CxxAsm(img)[0], 1);
        var d := Next(k, f, start, e, Decoded(Jump(img.orig), 1));
        assert d == e.(rip := img.orig);
        q := OrigSyscall(k, f, start, d, call, out, img.orig);
      case Framed(_, _) =>
        q := ThroughFrame(k, f, start, e, call, out, img);
    }
  }

  lemma EnterFrame(k: Kernel, f: Code, start: Cpu, e: Cpu, call: KernelCall, img: Image) returns (d: Cpu)
    requires ImageOk(img) && img.wrapper.Framed? && Mapped(f, img.cxx, CxxAsm(img))
    requires Reaches(k, f, start, e) && e.rip == img.cxx && Asks(e, call)
    requires FrameBytes(img.wrapper) <= e.regs.rsp && e.regs.rsp + 16 < TWO64
    ensures Reaches(k, f, start, d) && d.rip == img.orig && Asks(d, call)
    ensures d.regs == e.regs.(rsp := e.regs.rsp - FrameBytes(img.wrapper)) && d.trace == e.trace
    ensures Load(d.mem, d.regs.rsp) == img.cxx + 3
    ensures Load(d.mem, e.regs.rsp) == Load(e.mem, e.regs.rsp)
    ensures SameOutside(e.mem, d.mem, e.regs.rsp - FrameBytes(img.wrapper), e.regs.rsp)
  {
    hide Load, Reaches;
    var x, w, p := img.cxx, img.wrapper.words, CxxAsm(img);
    assert f(x + 0) == Decoded(p[0], 1) && f(x + 1) == Decoded(p[1], 1) && f(x + 2) == Decoded(p[2], 1);
    d := Next(k, f, start, e, Decoded(Lower(8 * w), 1));
    assert d == e.(regs := e.regs.(rsp := e.regs.rsp - 8 * w), rip := x + 1);
    d := NextPushMem(k, f, start, d, 8 * w + 8);
    d := NextCall(k, f, start, d, img.orig);
  }

  lemma ThroughFrame(k: Kernel, f: Code, start: Cpu, e: Cpu, call: KernelCall, out: Outcome, img: Image)
    returns (q: Cpu)
    requires ImageOk(img) && Mapped(f, img.orig, OrigAsm()) && Mapped(f, img.cxx, CxxAsm(img))
    requires img.wrapper.Framed? && Reaches(k, f, start, e) && e.rip == img.cxx && Asks(e, call)
    requires FrameBytes(img.wrapper) <= e.regs.rsp && e.regs.rsp + 16 < TWO64
    requires Blind(k, |e.trace|, call, e.mem, e.regs.rsp - FrameBytes(img.wrapper), e.regs.rsp, out)
    requires Clear(out.writes, e.regs.rsp - FrameBytes(img.wrapper), e.regs.rsp + 16)
    ensures Reaches(k, f, start, q) && Served(e, q, call, out)
    ensures SameOutside(Written(e.mem, out.writes), q.mem, e.regs.rsp - FrameBytes(img.wrapper), e.regs.rsp)
    ensures SameOutside(e.mem, q.trace[|e.trace|].mem, e.regs.rsp - FrameBytes(img.wrapper), e.regs.rsp)
  {
    hide Load, Reaches, Blind, CxxAsm, OrigAsm, Mapped;
    var d := EnterFrame(k, f, start, e, call, img);
    BlindAt(k, |e.trace|, call, e.mem, d.mem, e.regs.rsp - FrameBytes(img.wrapper), e.regs.rsp, out);
    q := OrigSyscall(k, f, start, d, call, out, img.orig);
    WrittenKeepsWord(d.mem, out.writes, e.regs.rsp, e.regs.rsp, e.regs.rsp + 8);
    q := LeaveFrame(k, f, start, q, Load(e.mem, e.regs.rsp), img);
  }

  /** The wrapper's way out: caller-saved registers are gone, its frame is released, it returns. */
  lemma LeaveFrame(k: Kernel, f: Code, start: Cpu, c: Cpu, ret: u64, img: Image) returns (q: Cpu)
    requires ImageOk(img) && img.wrapper.Framed? && Mapped(f, img.cxx, CxxAsm(img))
    requires Reaches(k, f, start, c) && c.rip == img.cxx + 3
    requires c.regs.rsp + FrameBytes(img.wrapper) < TWO64
    requires Load(c.mem, c.regs.rsp + FrameBytes(img.wrapper) - 8) == ret
    ensures Reaches(k, f, start, q) && q.rip == ret && q.mem == c.mem && q.trace == c.trace
    ensures q.regs.rsp == c.regs.rsp + FrameBytes(img.wrapper) && q.regs.rax == c.regs.rax
    ensures q.regs.rbp == c.regs.rbp && q.regs.rbx == c.regs.rbx && q.regs.r12 == c.regs.r12
    ensures q.regs.r13 == c.regs.r13 && q.regs.r14 == c.regs.r14 && q.regs.r15 == c.regs.r15
  {
    hide Load, Reaches;
    var x, p := img.cxx, CxxAsm(img);
    assert f(x + 3) == Decoded(p[3], 1) && f(x + 4) == Decoded(p[4], 1) && f(x + 5) == Decoded(p[5], 1);
    q := Next(k, f, start, c, Decoded(p[3], 1));
    q := Next(k, f, start, q, Decoded(p[4], 1));
    assert q.regs.rsp == c.regs.rsp + FrameBytes(img.wrapper) - 8 && q.rip == x + 5;
    q := NextRet(k, f, start, q, ret);
  }

  lemma BackToCaller(k: Kernel, f: Code, start: Cpu, q: Cpu, rbp: u64, ret: u64, sp: u64, img: Image) returns (c: Cpu)
    requires ImageOk(img) && Mapped(f, img.hooker, HookerAsm(img))
    requires Reaches(k, f, start, q) && q.rip == img.hooker + 22
    requires 16 <= sp && q.regs.rbp == sp - 16
    requires Load(q.mem, sp - 16) == rbp && Load(q.mem, sp - 8) == ret
    ensures Reaches(k, f, start, c)
    ensures c == q.(regs := q.regs.(rsp := sp, rbp := rbp), rip := ret)
  {
    hide HookerAsm, Mapped, Load, Reaches;
    CallFacts(f, img);
    c := NextLeave(k, f, start, q, rbp);
    c := NextRet(k, f, start, c, ret);
  }

  // ---- The theorem ----

  /** The code of an image, as the processor fetches it. */
  function CodeOf(img: Image): Code
    requires ImageOk(img)
  {
    (rip: u64) => Fetch(img, rip)
  }

  lemma ImageMapped(img: Image)
    requires ImageOk(img)
    ensures Mapped(CodeOf(img), img.hooker, HookerAsm(img))
    ensures Mapped(CodeOf(img), img.cxx, CxxAsm(img))
    ensures Mapped(CodeOf(img), img.orig, OrigAsm())
    ensures CodeOf(img)(img.site) == Decode(img.siteBytes)
  {
    hide HookerAsm, OrigAsm, CxxAsm, PageZero, Decode;
  }

  lemma PageMapped(img: Image)
    requires ImageOk(img)
    ensures forall a: u64 :: a < NR_SYSCALLS ==> CodeOf(img)(a) == Decoded(Nop, 1)
    ensures CodeOf(img)(512) == Decoded(Push(RAX), 1)
    ensures CodeOf(img)(513) == Decoded(MovImm(RAX, img.hooker), 10)
    ensures CodeOf(img)(523) == Decoded(JumpReg(RAX), 2)
  {
    hide PageZero, Decode;
    DecodePage(img.hooker);
  }

  /** Bytes of stack below the call site that the trampoline may use. */
  function Room(img: Image): nat { 104 + FrameBytes(img.wrapper) }

  const SYSCALL_BYTES: seq<u8> := [0x0f, 0x05]
  const CALL_RAX_BYTES: seq<u8> := [0xff, 0xd0]

  /** The kernel's answer to the call made at o. */
  function Answer(k: Kernel, o: Cpu): Outcome { k(|o.trace|, CallOf(o.regs), o.mem) }

  /** The processor is at a rewritten call site with a number the sled covers, enough stack below, and
      a kernel that neither looks at that stack nor writes into it. */
  ghost predicate AtSite(k: Kernel, img: Image, o: Cpu) {
    && ImageOk(img) && img.siteBytes == CALL_RAX_BYTES && o.rip == img.site
    && o.regs.rax <= NR_SYSCALLS
    && Room(img) <= o.regs.rsp
    && Blind(k, |o.trace|, CallOf(o.regs), o.mem, o.regs.rsp - Room(img), o.regs.rsp, Answer(k, o))
    && Clear(Answer(k, o).writes, o.regs.rsp - Room(img), o.regs.rsp)
  }

  /** What the original syscall instruction does in the same place. */
  function Original(k: Kernel, img: Image, o: Cpu): Cpu
    requires ImageOk(img)
  {
    Step(k, CodeOf(img.(siteBytes := SYSCALL_BYTES)), o)
  }

  lemma OriginalIs(k: Kernel, img: Image, o: Cpu)
    requires ImageOk(img) && o.rip == img.site
    ensures Original(k, img, o) == Trap(k, o.(rip := o.rip + 2))
  {
    var img' := img.(siteBytes := SYSCALL_BYTES);
    ImageMapped(img');
    assert CodeOf(img')(o.rip) == Decoded(Syscall, 2);
    StepIs(k, CodeOf(img'), o, Decoded(Syscall, 2));
  }

  /** The rewritten call site does what the syscall instruction did: same kernel call over the same
      memory, same result, same place to go on, same stack pointer and callee-saved registers, same memory
      outside the stretch of stack below the site.  With a tail-jumping wrapper every register
      but rcx agrees.  The word just under the stack pointer always ends up holding the return
      address, so a caller that keeps data in the red zone loses it. */
  lemma TrampolineEquivalence(k: Kernel, img: Image, o: Cpu) returns (c: Cpu)
    requires AtSite(k, img, o) && o.regs.rax != 15
    ensures Reaches(k, CodeOf(img), o, c)
    ensures var d := Original(k, img, o);
            && c.rip == d.rip && c.regs.rax == d.regs.rax
            && c.regs.rsp == d.regs.rsp && c.regs.rbp == d.regs.rbp && c.regs.rbx == d.regs.rbx
            && c.regs.r12 == d.regs.r12 && c.regs.r13 == d.regs.r13
            && c.regs.r14 == d.regs.r14 && c.regs.r15 == d.regs.r15
            && SameOutside(d.mem, c.mem, o.regs.rsp - Room(img), o.regs.rsp)
            && |c.trace| == |d.trace| == |o.trace| + 1
            && c.trace[|o.trace|].call == d.trace[|o.trace|].call
            && SameOutside(d.trace[|o.trace|].mem, c.trace[|o.trace|].mem, o.regs.rsp - Room(img), o.regs.rsp)
            && (img.wrapper.Tail? ==> c.regs == d.regs.(rcx := c.regs.rcx))
    ensures Load(c.mem, o.regs.rsp - 8) == img.site + 2
  {
    hide Load, Exec, Fetch, HookerAsm, OrigAsm, CxxAsm, Step, Blind;
    var f, call, sp := CodeOf(img), CallOf(o.regs), o.regs.rsp;
    var out := Answer(k, o);
    var writes := out.writes;
    ImageMapped(img);
    PageMapped(img);
    OriginalIs(k, img, o);
    var h := ToHooker(k, f, o, img.hooker);
    var e := ToCxx(k, f, o, o, h, img.site + 2, img);
    assert Asks(e, call);
    BlindInside(k, |o.trace|, call, o.mem, e.mem, sp - Room(img), sp,
                e.regs.rsp - FrameBytes(img.wrapper), e.regs.rsp, out);
    var q := ThroughCxx(k, f, o, e, call, out, img);
    assert SameOutside(Written(o.mem, writes), q.mem, sp - Room(img), sp);
    FrameSurvives(e, q, writes, sp, e.regs.rsp);
    c := BackToCaller(k, f, o, q, o.regs.rbp, img.site + 2, sp, img);
  }

  /** The saved frame pointer and return address outlive the kernel and the wrapper. */
  lemma FrameSurvives(e: Cpu, q: Cpu, writes: map<int, u8>, sp: u64, hi: int)
    requires Clear(writes, hi, sp) && hi <= sp - 16
    requires forall x :: x >= hi ==> Written(e.mem, writes)(x) == q.mem(x)
    ensures Load(q.mem, sp - 16) == Load(e.mem, sp - 16)
    ensures Load(q.mem, sp - 8) == Load(e.mem, sp - 8)
  {
    WrittenKeepsWord(e.mem, writes, sp - 16, hi, sp);
    WrittenKeepsWord(e.mem, writes, sp - 8, hi, sp);
    LoadFrame(Written(e.mem, writes), q.mem, sp - 16, 8);
    LoadFrame(Written(e.mem, writes), q.mem, sp - 8, 8);
  }

  lemma SigreturnPath(k: Kernel, f: Code, start: Cpu, o: Cpu, h: Cpu, ret: u64, img: Image) returns (c: Cpu)
    requires ImageOk(img) && Mapped(f, img.hooker, HookerAsm(img)) && Mapped(f, img.orig, OrigAsm())
    requires Reaches(k, f, start, h) && h.rip == img.hooker && AtHooker(o, h, ret) && o.regs.rax == 15
    ensures Reaches(k, f, start, c)
    ensures c.trace == o.trace + [Issued(CallOf(o.regs), o.regs.rsp - 8, h.mem)]
  {
    hide HookerAsm, Mapped, Load, Reaches;
    PrologueFacts(f, img);
    OrigFacts(f, img.orig);
    c := NextPop(k, f, start, h, 15);
    assert c.regs == o.regs.(rsp := o.regs.rsp - 8);
    c := NextCompare(k, f, start, c, img.orig + 7);
    c := NextSyscall(k, f, start, c);
  }

  /** Number 15 takes the short way to the syscall instruction: the kernel call is the same but
      is made with the stack pointer one word lower, on the pushed return address. */
  lemma SigreturnSeesShiftedStack(k: Kernel, img: Image, o: Cpu) returns (c: Cpu)
    requires AtSite(k, img, o) && o.regs.rax == 15
    ensures Reaches(k, CodeOf(img), o, c)
    ensures |c.trace| == |o.trace| + 1 && c.trace[..|o.trace|] == o.trace
    ensures var seen := c.trace[|o.trace|];
            && seen.call == CallOf(o.regs) && seen.rsp == o.regs.rsp - 8
            && SameOutside(o.mem, seen.mem, o.regs.rsp - 16, o.regs.rsp)
    ensures Original(k, img, o).trace == o.trace + [Issued(CallOf(o.regs), o.regs.rsp, o.mem)]
  {
    hide Load, Exec, Fetch, HookerAsm, OrigAsm, CxxAsm, Step;
    ImageMapped(img);
    PageMapped(img);
    OriginalIs(k, img, o);
    var h := ToHooker(k, CodeOf(img), o, img.hooker);
    c := SigreturnPath(k, CodeOf(img), o, o, h, img.site + 2, img);
  }

  /** Number 513 enters the stub behind its push: the hook takes the return address for the number. */
  lemma NumberPastStub(k: Kernel, img: Image, o: Cpu) returns (c: Cpu)
    requires ImageOk(img) && img.siteBytes == CALL_RAX_BYTES && o.rip == img.site
    requires o.regs.rax == NR_SYSCALLS + 1 && 8 <= o.regs.rsp
    ensures Reaches(k, CodeOf(img), o, c)
    ensures c.rip == img.hooker + 1 && c.regs.rax == img.site + 2 && c.regs.rsp == o.regs.rsp && c.trace == o.trace
  {
    hide Load, Exec, Fetch, HookerAsm, OrigAsm, CxxAsm, Step, Reaches, Mapped;
    var f := CodeOf(img);
    ImageMapped(img);
    PageMapped(img);
    PrologueFacts(f, img);
    Start(k, f, o);
    c := NextCallReg(k, f, o, o);
    c := StubJumps(k, f, o, c, img.hooker);
    c := NextPop(k, f, o, c, img.site + 2);
  }
}
