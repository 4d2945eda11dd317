/** The part of x86-64 that the syscall trampoline uses: registers, byte memory, stack. */
module X86 {
  import opened Words

  datatype Reg = RAX | RCX | RDX | RBX | RSP | RBP | RSI | RDI
               | R8 | R9 | R10 | R11 | R12 | R13 | R14 | R15

  datatype Regs = Regs(rax: u64, rcx: u64, rdx: u64, rbx: u64, rsp: u64, rbp: u64, rsi: u64, rdi: u64,
                       r8: u64, r9: u64, r10: u64, r11: u64, r12: u64, r13: u64, r14: u64, r15: u64)
  {
    function Get(r: Reg): u64 {
      match r
      case RAX => rax case RCX => rcx case RDX => rdx case RBX => rbx
      case RSP => rsp case RBP => rbp case RSI => rsi case RDI => rdi
      case R8 => r8 case R9 => r9 case R10 => r10 case R11 => r11
      case R12 => r12 case R13 => r13 case R14 => r14 case R15 => r15
    }

    function Set(r: Reg, v: u64): Regs {
      match r
      case RAX => this.(rax := v) case RCX => this.(rcx := v) case RDX => this.(rdx := v)
      case RBX => this.(rbx := v) case RSP => this.(rsp := v) case RBP => this.(rbp := v)
      case RSI => this.(rsi := v) case RDI => this.(rdi := v) case R8 => this.(r8 := v)
      case R9 => this.(r9 := v) case R10 => this.(r10 := v) case R11 => this.(r11 := v)
      case R12 => this.(r12 := v) case R13 => this.(r13 := v) case R14 => this.(r14 := v)
      case R15 => this.(r15 := v)
    }
  }

  // ---- Memory ----

  type Mem = int -> u8

  /** The little-endian value of the n bytes from a. */
  function LoadBytes(m: Mem, a: int, n: nat): (v: nat)
    ensures v < Pow256(n)
    decreases n
  {
    if n == 0 then 0 else m(a) + 256 * LoadBytes(m, a + 1, n - 1)
  }

  function Load(m: Mem, a: int): u64 {
    assert Pow256(8) == TWO64;
    LoadBytes(m, a, 8)
  }

  function Store(m: Mem, a: int, v: u64): Mem {
    (x: int) => if a <= x < a + 8 then Bytes(v, 8)[x - a] else m(x)
  }

  lemma {:induction false} LoadOfBytes(m: Mem, a: int, b: seq<u8>)
    requires forall x :: 0 <= x < |b| ==> m(a + x) == b[x]
    ensures LoadBytes(m, a, |b|) == Value(b)
    decreases |b|
  {
    if b != [] {
      forall x | 0 <= x < |b| - 1
        ensures m((a + 1) + x) == b[1..][x]
      {
        assert m(a + (x + 1)) == b[x + 1];
      }
      LoadOfBytes(m, a + 1, b[1..]);
      assert m(a + 0) == b[0];
    }
  }

  lemma {:induction false} LoadFrame(m: Mem, m': Mem, a: int, n: nat)
    requires forall x :: a <= x < a + n ==> m(x) == m'(x)
    ensures LoadBytes(m, a, n) == LoadBytes(m', a, n)
    decreases n
  {
    if n > 0 {
      LoadFrame(m, m', a + 1, n - 1);
    }
  }

  lemma LoadStored(m: Mem, a: int, v: u64)
    ensures Load(Store(m, a, v), a) == v
  {
    hide Bytes, Value;
    assert Pow256(8) == TWO64;
    LoadOfBytes(Store(m, a, v), a, Bytes(v, 8));
    ValueOfBytes(v, 8);
  }

  lemma LoadAbove(m: Mem, a: int, v: u64, b: int)
    requires b >= a + 8
    ensures Load(Store(m, a, v), b) == Load(m, b)
  {
    LoadFrame(Store(m, a, v), m, b, 8);
  }

  /** A store leaves every word above it and every byte around it alone. */
  lemma StoreBelow(m: Mem, a: int, v: u64)
    ensures Load(Store(m, a, v), a) == v
    ensures forall b :: b >= a + 8 ==> Load(Store(m, a, v), b) == Load(m, b)
    ensures forall x :: x >= a + 8 || x < a ==> Store(m, a, v)(x) == m(x)
  {
    hide Load;
    LoadStored(m, a, v);
    forall b | b >= a + 8
      ensures Load(Store(m, a, v), b) == Load(m, b)
    {
      LoadAbove(m, a, v, b);
    }
  }

  // ---- Instructions ----

  datatype Insn =
    | Nop
    | Push(src: Reg)
    | PushMem(disp: int)             // pushq disp(%rsp)
    | Pop(dst: Reg)
    | MovImm(dst: Reg, imm: u64)     // movabs
    | Mov(dst: Reg, src: Reg)
    | MovLoad(dst: Reg, disp: int)   // movq disp(%rsp), dst
    | CmpImm(imm: u64, reg: Reg)
    | JumpEqual(target: u64)
    | JumpReg(reg: Reg)
    | Jump(target: u64)
    | CallReg(reg: Reg)
    | Call(target: u64)
    | AlignStack                     // andq $-16, %rsp
    | Lower(bytes: nat)              // subq $bytes, %rsp
    | Raise(bytes: nat)              // addq $bytes, %rsp
    | Leave
    | Ret
    | Syscall
    | Clobber(junk: Regs)            // compiled code that may use the caller-saved registers
    | Bad

  /** A decoded instruction and its length. */
  datatype Decoded = Decoded(insn: Insn, len: nat)

  /** The six-argument kernel call of section A.2.1 of the System V AMD64 ABI. */
  datatype KernelCall = KernelCall(nr: u64, a1: u64, a2: u64, a3: u64, a4: u64, a5: u64, a6: u64)

  /** What the kernel does for a call: the values left in rax and r11 and the user bytes it writes. */
  datatype Outcome = Outcome(result: u64, r11: u64, writes: map<int, u8>)

  /** A kernel: its answer to the k-th call of a run, made over a memory it may read. */
  type Kernel = (nat, KernelCall, Mem) -> Outcome

  /** A call as the kernel sees it. */
  datatype Issued = Issued(call: KernelCall, rsp: u64, mem: Mem)

  datatype Cpu = Cpu(regs: Regs, rip: u64, equal: bool, mem: Mem, trace: seq<Issued>)

  function CallOf(r: Regs): KernelCall {
    KernelCall(r.rax, r.rdi, r.rsi, r.rdx, r.r10, r.r8, r.r9)
  }

  function Written(m: Mem, writes: map<int, u8>): Mem {
    (x: int) => if x in writes then writes[x] else m(x)
  }

  function PushValue(c: Cpu, v: u64): Cpu {
    var sp := ToU64(c.regs.rsp - 8);
    c.(regs := c.regs.(rsp := sp), mem := Store(c.mem, sp, v))
  }

  /** One instruction; `rip` already points past it. */
  function Exec(k: Kernel, i: Insn, c: Cpu): Cpu {
    var r := c.regs;
    match i
    case Nop => c
    case Push(src) => PushValue(c, r.Get(src))
    case PushMem(disp) => PushValue(c, Load(c.mem, r.rsp + disp))
    case Pop(dst) => c.(regs := r.(rsp := ToU64(r.rsp + 8)).Set(dst, Load(c.mem, r.rsp)))
    case MovImm(dst, imm) => c.(regs := r.Set(dst, imm))
    case Mov(dst, src) => c.(regs := r.Set(dst, r.Get(src)))
    case MovLoad(dst, disp) => c.(regs := r.Set(dst, Load(c.mem, r.rsp + disp)))
    case CmpImm(imm, reg) => c.(equal := r.Get(reg) == imm)
    case JumpEqual(target) => if c.equal then c.(rip := target) else c
    case JumpReg(reg) => c.(rip := r.Get(reg))
    case Jump(target) => c.(rip := target)
    case CallReg(reg) => PushValue(c, c.rip).(rip := r.Get(reg))
    case Call(target) => PushValue(c, c.rip).(rip := target)
    case AlignStack => c.(regs := r.(rsp := r.rsp - r.rsp % 16))
    case Lower(bytes) => c.(regs := r.(rsp := ToU64(r.rsp - bytes)))
    case Raise(bytes) => c.(regs := r.(rsp := ToU64(r.rsp + bytes)))
    case Leave => c.(regs := r.(rsp := ToU64(r.rbp + 8), rbp := Load(c.mem, r.rbp)))
    case Ret => c.(regs := r.(rsp := ToU64(r.rsp + 8)), rip := Load(c.mem, r.rsp))
    case Syscall => Trap(k, c)
    case Clobber(j) =>
      c.(regs := r.(rcx := j.rcx, rdx := j.rdx, rsi := j.rsi, rdi := j.rdi,
                    r8 := j.r8, r9 := j.r9, r10 := j.r10, r11 := j.r11))
    case Bad => c
  }

  /** The syscall instruction: the kernel destroys rcx and r11 and keeps every other register. */
  function Trap(k: Kernel, c: Cpu): Cpu {
    var call := CallOf(c.regs);
    var o := k(|c.trace|, call, c.mem);
    c.(regs := c.regs.(rax := o.result, rcx := c.rip, r11 := o.r11),
       mem := Written(c.mem, o.writes), trace := c.trace + [Issued(call, c.regs.rsp, c.mem)])
  }
}
