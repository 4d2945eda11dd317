/** The in-place sweep that turns syscall instructions into `call *%rax`. */
module Sweep {
  import opened Words
  import T = Trampoline

  datatype Kind = SyscallInsn | SysenterInsn | Other

  datatype Found = Undecodable | Insn(len: nat, kind: Kind)

  /** A disassembler: what it finds at the front of the remaining bytes. */
  type Decoder = seq<u8> -> Found

  /** The disassembler stays within the bytes, looks only at the bytes of the instruction it
      reports, and knows syscall and sysenter as two bytes and FF D0 as something else. */
  ghost predicate Faithful(dec: Decoder) {
    && (forall s :: dec(s).Insn? ==> 1 <= dec(s).len <= |s|)
    && (forall s, t :: (dec(s).Insn? && dec(s).len <= |s| && dec(s).len <= |t|
                        && s[..dec(s).len] == t[..dec(s).len]) ==> dec(t) == dec(s))
    && (forall s :: dec(s).Insn? && !dec(s).kind.Other? ==> dec(s).len == 2)
    && (forall s :: |s| >= 2 && s[..2] == T.CALL_RAX_BYTES ==> dec(s) == Insn(2, Other))
  }

  /** A decoder that knows only the two instructions of the rewriting is faithful. */
  function TwoInstructions(s: seq<u8>): Found {
    if |s| >= 2 && s[..2] == T.CALL_RAX_BYTES then Insn(2, Other)
    else if |s| >= 2 && s[..2] == T.SYSCALL_BYTES then Insn(2, SyscallInsn)
    else Undecodable
  }

  lemma SomeDecoderIsFaithful()
    ensures Faithful(TwoInstructions)
  {
    forall s, t | TwoInstructions(s).Insn? && 2 <= |t| && s[..2] == t[..2]
      ensures TwoInstructions(t) == TwoInstructions(s)
    {
    }
  }

  lemma Within(dec: Decoder, s: seq<u8>)
    requires Faithful(dec) && dec(s).Insn?
    ensures 1 <= dec(s).len <= |s|
    ensures !dec(s).kind.Other? ==> dec(s).len == 2
  {
  }

  /** A decoded instruction at its address. */
  datatype Mark = Mark(addr: int, len: nat, kind: Kind)

  /** Instruction boundaries of the decodable prefix, without any rewriting. */
  ghost function Marks(dec: Decoder, s: seq<u8>, addr: int): seq<Mark>
    requires Faithful(dec)
    decreases |s|
  {
    match dec(s)
    case Undecodable => []
    case Insn(len, kind) => [Mark(addr, len, kind)] + Marks(dec, s[len..], addr + len)
  }

  /** A system call other than the trampoline's own, at `keep`. */
  predicate Target(m: Mark, keep: int) { !m.kind.Other? && m.addr != keep }

  /** The bytes with exactly the targets replaced. */
  ghost function Rewritten(dec: Decoder, s: seq<u8>, addr: int, keep: int): (r: seq<u8>)
    requires Faithful(dec)
    ensures |r| == |s|
    decreases |s|
  {
    match dec(s)
    case Undecodable => s
    case Insn(len, kind) =>
      (if Target(Mark(addr, len, kind), keep) then T.CALL_RAX_BYTES else s[..len])
      + Rewritten(dec, s[len..], addr + len, keep)
  }

  /** The bytes that replace the instruction at the front. */
  ghost function Piece(dec: Decoder, s: seq<u8>, addr: int, keep: int): (p: seq<u8>)
    requires Faithful(dec) && dec(s).Insn?
    ensures |p| == dec(s).len
  {
    if Target(Mark(addr, dec(s).len, dec(s).kind), keep) then T.CALL_RAX_BYTES else s[..dec(s).len]
  }

  lemma RewrittenFront(dec: Decoder, t: seq<u8>, addr: int, keep: int)
    requires Faithful(dec) && dec(t).Insn?
    ensures 1 <= dec(t).len <= |t|
    ensures Rewritten(dec, t, addr, keep) ==
            Piece(dec, t, addr, keep) + Rewritten(dec, t[dec(t).len..], addr + dec(t).len, keep)
  {
    hide Faithful;
    Within(dec, t);
  }

  lemma OneMore(dec: Decoder, s: seq<u8>, base: int, keep: int, done: seq<u8>, pos: nat)
    requires Faithful(dec) && pos <= |s| && dec(s[pos..]).Insn?
    requires done + Rewritten(dec, s[pos..], base + pos, keep) == Rewritten(dec, s, base, keep)
    ensures 1 <= dec(s[pos..]).len && pos + dec(s[pos..]).len <= |s|
    ensures var len := dec(s[pos..]).len;
            done + Piece(dec, s[pos..], base + pos, keep) + Rewritten(dec, s[pos + len..], base + pos + len, keep)
            == Rewritten(dec, s, base, keep)
  {
    hide Faithful, Rewritten, Piece;
    RewrittenFront(dec, s[pos..], base + pos, keep);
    var len := dec(s[pos..]).len;
    assert s[pos..][len..] == s[pos + len..];
    Assoc(done, Piece(dec, s[pos..], base + pos, keep), Rewritten(dec, s[pos + len..], base + pos + len, keep));
  }

  lemma Assoc(a: seq<u8>, b: seq<u8>, c: seq<u8>)
    ensures a + b + c == a + (b + c)
  {
  }

  /** Rewrites the code in place while decoding it. */
  method RewriteSegment(code: array<u8>, base: int, keep: int, dec: Decoder)
    requires Faithful(dec)
    modifies code
    ensures code[..] == Rewritten(dec, old(code[..]), base, keep)
  {
    hide Faithful, Rewritten, Piece;
    var pos := 0;
    ghost var s := code[..];
    ghost var done: seq<u8> := [];
    assert s[0..] == s;
    while pos < code.Length
      invariant 0 <= pos <= code.Length && |done| == pos
      invariant forall x :: 0 <= x < pos ==> code[x] == done[x]
      invariant forall x :: pos <= x < code.Length ==> code[x] == s[x]
      invariant done + Rewritten(dec, s[pos..], base + pos, keep) == Rewritten(dec, s, base, keep)
      decreases code.Length - pos
    {
      assert code[pos..] == s[pos..];
      var found := dec(code[pos..]);
      if found.Undecodable? {
        break;
      }
      OneMore(dec, s, base, keep, done, pos);
      PieceBytes(dec, s, pos, base + pos, keep);
      if !found.kind.Other? && base + pos != keep {
        code[pos] := 0xff;
        code[pos + 1] := 0xd0;
      }
      done := done + Piece(dec, s[pos..], base + pos, keep);
      pos := pos + found.len;
    }
    Tail(dec, s, pos, base + pos, keep);
    assert code[..] == done + s[pos..];
  }

  lemma PieceBytes(dec: Decoder, s: seq<u8>, pos: nat, addr: int, keep: int)
    requires Faithful(dec) && pos <= |s| && dec(s[pos..]).Insn?
    ensures var f, p := dec(s[pos..]), Piece(dec, s[pos..], addr, keep);
            && pos + f.len <= |s|
            && (!f.kind.Other? ==> f.len == 2)
            && (!f.kind.Other? && addr != keep ==> p[0] == 0xff && p[1] == 0xd0)
            && (f.kind.Other? || addr == keep ==> forall x :: 0 <= x < f.len ==> p[x] == s[pos + x])
  {
    hide Faithful;
    Within(dec, s[pos..]);
  }

  /** At the end of the code, or where decoding stops, nothing more is replaced. */
  lemma Tail(dec: Decoder, s: seq<u8>, pos: nat, addr: int, keep: int)
    requires Faithful(dec) && pos <= |s| && (pos == |s| || dec(s[pos..]).Undecodable?)
    ensures Rewritten(dec, s[pos..], addr, keep) == s[pos..]
  {
    hide Faithful;
    if dec(s[pos..]).Insn? {
      Within(dec, s[pos..]);
    }
  }

  /** A rewritten instruction decodes as an ordinary one of the same length. */
  function Retagged(marks: seq<Mark>, keep: int): (r: seq<Mark>)
    ensures |r| == |marks|
  {
    if marks == [] then []
    else [if Target(marks[0], keep) then marks[0].(kind := Other) else marks[0]] + Retagged(marks[1..], keep)
  }

  lemma {:induction false} RetaggedAt(marks: seq<Mark>, keep: int, k: nat)
    requires k < |marks|
    ensures Retagged(marks, keep)[k] ==
            if Target(marks[k], keep) then marks[k].(kind := Other) else marks[k]
  {
    if k > 0 {
      RetaggedAt(marks[1..], keep, k - 1);
    }
  }

  lemma RewrittenHead(dec: Decoder, s: seq<u8>, addr: int, keep: int)
    requires Faithful(dec) && dec(s).Insn?
    ensures var f, r := dec(s), Rewritten(dec, s, addr, keep);
            && r[f.len..] == Rewritten(dec, s[f.len..], addr + f.len, keep)
            && dec(r) == if Target(Mark(addr, f.len, f.kind), keep) then Insn(2, Other) else f
  {
    var f, r := dec(s), Rewritten(dec, s, addr, keep);
    if Target(Mark(addr, f.len, f.kind), keep) {
      assert r[..2] == T.CALL_RAX_BYTES;
    } else {
      assert r[..f.len] == s[..f.len];
    }
  }

  /** Every boundary of the decodable prefix survives the sweep, and only the targets change kind. */
  lemma {:induction false} SweepKeepsBoundaries(dec: Decoder, s: seq<u8>, addr: int, keep: int)
    requires Faithful(dec)
    ensures Marks(dec, Rewritten(dec, s, addr, keep), addr) == Retagged(Marks(dec, s, addr), keep)
    decreases |s|
  {
    hide Faithful;
    var f := dec(s);
    if f.Insn? {
      Within(dec, s);
      var m := Marks(dec, s, addr);
      assert m[1..] == Marks(dec, s[f.len..], addr + f.len);
      RewrittenHead(dec, s, addr, keep);
      SweepKeepsBoundaries(dec, s[f.len..], addr + f.len, keep);
    }
  }

  /** Some target covers address y at offset d. */
  ghost predicate Covered(dec: Decoder, s: seq<u8>, addr: int, keep: int, y: int, d: nat)
    requires Faithful(dec)
  {
    exists m :: m in Marks(dec, s, addr) && Target(m, keep) && m.addr + d == y
  }

  lemma CoveredCons(dec: Decoder, s: seq<u8>, addr: int, keep: int, y: int, d: nat)
    requires Faithful(dec) && dec(s).Insn?
    ensures var f := dec(s);
            Covered(dec, s, addr, keep, y, d) <==>
              (Target(Mark(addr, f.len, f.kind), keep) && addr + d == y)
              || Covered(dec, s[f.len..], addr + f.len, keep, y, d)
  {
    hide Faithful;
    var f := dec(s);
    Within(dec, s);
    var marks, rest := Marks(dec, s, addr), Marks(dec, s[f.len..], addr + f.len);
    assert marks == [Mark(addr, f.len, f.kind)] + rest;
    forall m
      ensures m in marks <==> m == Mark(addr, f.len, f.kind) || m in rest
    {
    }
  }

  /** Byte by byte: FF D0 over each target, everything else untouched. */
  lemma {:induction false} SweepBytes(dec: Decoder, s: seq<u8>, addr: int, keep: int, x: nat)
    requires Faithful(dec) && x < |s|
    ensures Rewritten(dec, s, addr, keep)[x] ==
            if Covered(dec, s, addr, keep, addr + x, 0) then 0xff
            else if Covered(dec, s, addr, keep, addr + x, 1) then 0xd0
            else s[x]
    decreases |s|
  {
    hide Faithful, Covered;
    var f := dec(s);
    if f.Insn? {
      Within(dec, s);
      CoveredCons(dec, s, addr, keep, addr + x, 0);
      CoveredCons(dec, s, addr, keep, addr + x, 1);
      if x >= f.len {
        SweepBytes(dec, s[f.len..], addr + f.len, keep, x - f.len);
      } else {
        NotBehind(dec, s[f.len..], addr + f.len, keep, addr + x, 0);
        NotBehind(dec, s[f.len..], addr + f.len, keep, addr + x, 1);
      }
    } else {
      Uncovered(dec, s, addr, keep, addr + x, 0);
      Uncovered(dec, s, addr, keep, addr + x, 1);
    }
  }

  lemma Uncovered(dec: Decoder, s: seq<u8>, addr: int, keep: int, y: int, d: nat)
    requires Faithful(dec) && dec(s).Undecodable?
    ensures !Covered(dec, s, addr, keep, y, d)
  {
    hide Faithful;
  }

  /** Targets lie at or after the address the sweep starts from. */
  lemma NotBehind(dec: Decoder, s: seq<u8>, addr: int, keep: int, y: int, d: nat)
    requires Faithful(dec) && y < addr
    ensures !Covered(dec, s, addr, keep, y, d)
  {
    hide Faithful;
    MarksFrom(dec, s, addr);
  }

  lemma {:induction false} MarksFrom(dec: Decoder, s: seq<u8>, addr: int)
    requires Faithful(dec)
    ensures forall k :: 0 <= k < |Marks(dec, s, addr)| ==> Marks(dec, s, addr)[k].addr >= addr
    decreases |s|
  {
    hide Faithful;
    if dec(s).Insn? {
      Within(dec, s);
      MarksFrom(dec, s[dec(s).len..], addr + dec(s).len);
    }
  }

  /** Sweeping again changes nothing. */
  lemma {:induction false} SweepIdempotent(dec: Decoder, s: seq<u8>, addr: int, keep: int)
    requires Faithful(dec)
    ensures Rewritten(dec, Rewritten(dec, s, addr, keep), addr, keep) == Rewritten(dec, s, addr, keep)
    decreases |s|
  {
    hide Faithful;
    var f := dec(s);
    if f.Insn? {
      RewrittenFront(dec, s, addr, keep);
      RewrittenHead(dec, s, addr, keep);
      SweepIdempotent(dec, s[f.len..], addr + f.len, keep);
      FrontSettled(dec, s, addr, keep);
    }
  }

  lemma FrontSettled(dec: Decoder, s: seq<u8>, addr: int, keep: int)
    requires Faithful(dec) && dec(s).Insn?
    ensures var r, rest := Rewritten(dec, s, addr, keep), s[dec(s).len..];
            var tail := Rewritten(dec, rest, addr + dec(s).len, keep);
            Rewritten(dec, tail, addr + dec(s).len, keep) == tail ==> Rewritten(dec, r, addr, keep) == r
  {
    hide Faithful, Rewritten;
    var r, f := Rewritten(dec, s, addr, keep), dec(s);
    Within(dec, s);
    RewrittenFront(dec, s, addr, keep);
    RewrittenHead(dec, s, addr, keep);
    RewrittenFront(dec, r, addr, keep);
    assert r[..f.len] == Piece(dec, s, addr, keep);
  }
}
