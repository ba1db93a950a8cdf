/** Each encoding, whatever bytes follow, decodes to the instruction it is named after. */
module OpcodesProof {
  import opened Wrappers
  import opened Emit
  import opened Opcodes
  import opened Decoder

  /** Every byte string starting with `s` decodes to `op`, ending where `s` ends. */
  ghost predicate Encodes(s: bytes, op: Op)
  {
    forall t: bytes :: s <= t ==> Decode(t) == Some((op, |s|))
  }

  lemma {:induction false} PushAxDecodes()
    ensures Encodes(PushAx(), Push16(0))
  {
    forall t: bytes | PushAx() <= t ensures Decode(t) == Some((Push16(0), 2)) {
      assert t[0] == PushAx()[0] && t[1] == PushAx()[1];
    }
  }

  lemma {:induction false} PushR11Decodes()
    ensures Encodes(PushR11(), Push64(R11))
  {
    forall t: bytes | PushR11() <= t ensures Decode(t) == Some((Push64(R11), 2)) {
      assert t[0] == PushR11()[0] && t[1] == PushR11()[1];
    }
  }

  lemma {:induction false} LeaRspDecodes()
    ensures Encodes(LeaRspRsp4(), Lea64(ESP, Based(ESP, 4)))
  {
    var s := LeaRspRsp4();
    forall t: bytes | s <= t ensures Decode(t) == Some((Lea64(ESP, Based(ESP, 4)), 5)) {
      assert t[0] == s[0] && t[1] == s[1] && t[2] == s[2] && t[3] == s[3] && t[4] == s[4];
    }
  }

  lemma {:induction false} StoreDecodes(r: nat)
    requires r < 16
    ensures Encodes(MovMemRspR32(r), Store32(Based(ESP, 0), r))
  {
    var s := MovMemRspR32(r);
    forall t: bytes | s <= t ensures Decode(t) == Some((Store32(Based(ESP, 0), r), |s|)) {
      assert t[0] == s[0] && t[1] == s[1] && t[2] == s[2];
      if r >= 8 {
        assert t[3] == s[3];
      }
    }
  }

  lemma {:induction false} LoadDecodes(r: nat)
    requires r < 16
    ensures Encodes(MovR32MemRsp(r), Load32(r, Based(ESP, 0)))
  {
    var s := MovR32MemRsp(r);
    forall t: bytes | s <= t ensures Decode(t) == Some((Load32(r, Based(ESP, 0)), |s|)) {
      assert t[0] == s[0] && t[1] == s[1] && t[2] == s[2];
      if r >= 8 {
        assert t[3] == s[3];
      }
    }
  }

  lemma {:induction false} JmpR64Decodes(r: nat)
    requires r < 16
    ensures Encodes(JmpR64(r), JmpTo(Reg(r)))
  {
    var s := JmpR64(r);
    forall t: bytes | s <= t ensures Decode(t) == Some((JmpTo(Reg(r)), |s|)) {
      assert t[0] == s[0] && t[1] == s[1];
      if r >= 8 {
        assert t[2] == s[2];
      }
    }
  }

  /** A 32-bit field inside a byte string. */
  predicate FieldAt(t: bytes, pos: nat, field: bytes)
  {
    pos + |field| <= |t| && t[pos..pos + |field|] == field
  }

  lemma {:induction false} Imm32Reads(imm: uint32)
    ensures Imm32(Le(4, imm)) == imm
  {
    WordWidths();
    FieldHolds(4, imm);
  }

  lemma {:induction false} StoreImmDecodes(imm: uint32)
    ensures Encodes(MovMemRspImm(imm), StoreImm32(Based(ESP, 0), imm))
  {
    var s := MovMemRspImm(imm);
    Imm32Reads(imm);
    hide Le, FromLe, Signed32, Imm32;
    forall t: bytes | s <= t ensures Decode(t) == Some((StoreImm32(Based(ESP, 0), imm), 7)) {
      assert t[0] == s[0] && t[1] == s[1] && t[2] == s[2];
      assert t[3..7] == s[3..7] == Le(4, imm);
    }
  }

  lemma {:induction false} MovImmDecodes(r: nat, imm: uint32)
    requires r < 8
    ensures Encodes(MovR32Imm(r, imm), MovImm32(r, imm))
  {
    var s := MovR32Imm(r, imm);
    Imm32Reads(imm);
    hide Le, FromLe, Signed32, Imm32;
    forall t: bytes | s <= t ensures Decode(t) == Some((MovImm32(r, imm), 5)) {
      assert t[0] == s[0];
      assert t[1..5] == s[1..5] == Le(4, imm);
    }
  }

  lemma {:induction false} IncDecDecode(r: nat)
    requires r < 8
    ensures Encodes(IncR32(r), Inc32(r)) && Encodes(DecR32(r), Dec32(r))
  {
    forall t: bytes | IncR32(r) <= t ensures Decode(t) == Some((Inc32(r), 2)) {
      assert t[0] == IncR32(r)[0] && t[1] == IncR32(r)[1];
    }
    forall t: bytes | DecR32(r) <= t ensures Decode(t) == Some((Dec32(r), 2)) {
      assert t[0] == DecR32(r)[0] && t[1] == DecR32(r)[1];
    }
  }

  // ----- encodings with a patched displacement -----

  lemma {:induction false} LeaR11Decodes(field: bytes)
    requires |field| == 4
    ensures Encodes(LeaR11Rip()[..3] + field, Lea64(R11, Rip(Signed32(field))))
  {
    var s := LeaR11Rip()[..3] + field;
    hide FromLe, Signed32;
    forall t: bytes | s <= t ensures Decode(t) == Some((Lea64(R11, Rip(Signed32(field))), 7)) {
      assert t[0] == s[0] && t[1] == s[1] && t[2] == s[2];
      assert t[1..][1..][1..5] == t[3..7] == s[3..7] == field;
    }
  }

  lemma {:induction false} LeaR32Decodes(r: nat, field: bytes)
    requires r < 8 && |field| == 4
    ensures Encodes(LeaR32Rip(r)[..2] + field, Lea32(r, Rip(Signed32(field))))
  {
    var s := LeaR32Rip(r)[..2] + field;
    hide FromLe, Signed32;
    forall t: bytes | s <= t ensures Decode(t) == Some((Lea32(r, Rip(Signed32(field))), 6)) {
      assert t[0] == s[0] && t[1] == s[1];
      assert t[1..][1..5] == t[2..6] == s[2..6] == field;
    }
  }

  lemma {:induction false} JmpMemDecodes(field: bytes)
    requires |field| == 4
    ensures Encodes(JmpMemRip()[..2] + field, JmpTo(Rip(Signed32(field))))
  {
    var s := JmpMemRip()[..2] + field;
    hide FromLe, Signed32;
    forall t: bytes | s <= t ensures Decode(t) == Some((JmpTo(Rip(Signed32(field))), 6)) {
      assert t[0] == s[0] && t[1] == s[1];
      assert t[1..][1..5] == t[2..6] == s[2..6] == field;
    }
  }

  lemma {:induction false} JmpRelDecodes(field: bytes)
    requires |field| == 4
    ensures Encodes([0xe9] + field, JmpBy(Signed32(field)))
  {
    var s := [0xe9] + field;
    hide FromLe, Signed32;
    forall t: bytes | s <= t ensures Decode(t) == Some((JmpBy(Signed32(field)), 5)) {
      assert t[0] == s[0];
      assert t[1..5] == s[1..5] == field;
    }
  }

  lemma {:induction false} PushImmDecodes(field: bytes)
    requires |field| == 4
    ensures Encodes([0x68] + field, PushImm64(Signed32(field)))
  {
    var s := [0x68] + field;
    hide FromLe, Signed32;
    forall t: bytes | s <= t ensures Decode(t) == Some((PushImm64(Signed32(field)), 5)) {
      assert t[0] == s[0];
      assert t[1..5] == s[1..5] == field;
    }
  }

  lemma {:induction false} JccDecodes(cond: nat, field: bytes)
    requires cond < 16 && |field| == 4
    ensures Encodes([0x0f, 0x80 + cond] + field, JccBy(cond, Signed32(field)))
  {
    var s := [0x0f, 0x80 + cond] + field;
    hide FromLe, Signed32;
    forall t: bytes | s <= t ensures Decode(t) == Some((JccBy(cond, Signed32(field)), 6)) {
      assert t[0] == s[0] && t[1] == s[1];
      assert t[2..6] == s[2..6] == field;
    }
  }

  // ----- push of memory -----

  /** The load that Transform makes of `push m32`, with the field bits of the source spelled out. */
  ghost predicate LoadOf(buf: bytes, code: bytes)
  {
    && |buf| >= 2 && |code| == |buf| + 1 && code[0] == 0x44 && code[1] == 0x8b && code[3..] == buf[2..]
    && code[2] / 64 == buf[1] / 64 && code[2] % 8 == buf[1] % 8 && code[2] / 8 % 8 == 3
  }

  lemma {:induction false} DisplacementGoesOn(s: bytes, t: bytes, mod: nat)
    requires s <= t && Displacement(s, mod).Some?
    ensures Displacement(t, mod) == Displacement(s, mod)
  {
    hide FromLe, Signed32;
    if |s| >= 4 {
      assert t[..4] == s[..4];
    }
  }

  lemma {:induction false} ModRmLoads(buf: bytes, t: bytes, b: byte, m: Mem32)
    requires PushOperand(buf) == Some(m) && b / 64 == buf[1] / 64 && b % 8 == buf[1] % 8 && b / 8 % 8 == 3
    requires |t| > 0 && t[0] == b && buf[2..] <= t[1..] && b != 0x1d
    ensures ModRm(t, Rex(false, true, false)) == Some((11, Widened(m), |buf| - 1))
  {
    var s := buf[1..];
    var mod, rm := b / 64, b % 8;
    assert buf[2..] == s[1..];
    assert !(mod == 0 && rm == 5);
    hide Signed32, Displacement;
    if rm == 4 {
      assert s[1..][1..] == s[2..] && t[1..][1..] == t[2..] && s[1] == t[1] && s[2..] <= t[2..];
      DisplacementGoesOn(s[2..], t[2..], if mod == 0 && s[1] % 8 == 5 then 2 else mod);
    } else {
      DisplacementGoesOn(s[1..], t[1..], mod);
    }
  }

  /** Every operand but the absolute one survives the change of encoding; r11 receives the dword. */
  lemma {:induction false} PushLoads(buf: bytes, code: bytes, m: Mem32)
    requires PushOperand(buf) == Some(m) && LoadOf(buf, code) && buf[1] != 0x35
    ensures Encodes(code, Load32(R11, Widened(m)))
  {
    RegIsSix(buf);
    hide ModRm, ModRm32, PushOperand, Widened;
    forall t: bytes | code <= t ensures Decode(t) == Some((Load32(R11, Widened(m)), |code|)) {
      var u := t[2..];
      assert t[0] == code[0] && t[1] == code[1] && t[2] == code[2];
      assert t[1..][1..] == u && u[0] == code[2] && buf[2..] <= u[1..] by {
        assert code[3..] <= t[3..] && u[1..] == t[3..];
      }
      ModRmLoads(buf, u, u[0], m);
      NotReg(m);
    }
  }

  lemma {:induction false} RegIsSix(buf: bytes)
    requires PushOperand(buf).Some?
    ensures |buf| >= 2 && buf[0] == 0xff && buf[1] / 8 % 8 == 6 && buf[1] / 64 != 3
  {
    hide FromLe, Signed32, Displacement;
  }

  lemma {:induction false} NotReg(m: Mem32)
    ensures !Widened(m).Reg?
  {
  }

  /** The absolute form, which is rejected before, would read relative to the instruction instead. */
  lemma {:induction false} AbsoluteMoves(buf: bytes, code: bytes, m: Mem32)
    requires PushOperand(buf) == Some(m) && LoadOf(buf, code) && buf[1] == 0x35
    ensures m.base.None? && m.index.None? && Encodes(code, Load32(R11, Rip(m.disp)))
  {
    hide FromLe, Signed32;
    forall t: bytes | code <= t ensures Decode(t) == Some((Load32(R11, Rip(m.disp)), |code|)) {
      assert t[0] == code[0] && t[1] == code[1] && t[2] == code[2] == 0x1d;
      assert t[1..][1..][1..5] == t[3..7] == code[3..7] == buf[2..6] == buf[1..][1..][..4];
    }
  }

  // ----- copied accesses to memory -----

  lemma {:induction false} ModRmCopied(s: bytes, t: bytes, reg: nat, m: Mem32)
    requires ModRm32(s) == Some((reg, m, |s|)) && s <= t && !Absolute(s[0])
    ensures ModRm(t, Rex(false, false, false)) == Some((reg, Widened(m), |s|)) && reg < 8
  {
    var mod, rm := s[0] / 64, s[0] % 8;
    assert t[0] == s[0];
    hide Signed32, Displacement;
    if rm == 4 {
      assert s[1] == t[1] && s[2..] <= t[2..];
      DisplacementGoesOn(s[2..], t[2..], if mod == 0 && s[1] % 8 == 5 then 2 else mod);
    } else {
      assert s[1..] <= t[1..];
      DisplacementGoesOn(s[1..], t[1..], mod);
    }
  }

  lemma {:induction false} RegMemIs(buf: bytes, opcode: byte)
    requires RegMem(buf, opcode).Some?
    ensures |buf| >= 2 && buf[0] == opcode
    ensures var (reg, m) := RegMem(buf, opcode).value; ModRm32(buf[1..]) == Some((reg, m, |buf[1..]|))
  {
    hide FromLe, Signed32, Displacement;
  }

  /** Any encoding of a load, a store or a lea but the absolute ones is one in 64-bit mode too, of the same operand. */
  lemma {:induction false} CopyDecodes(buf: bytes, opcode: byte, r: nat, m: Mem32)
    requires RegMem(buf, opcode) == Some((r, m)) && !Absolute(buf[1])
    ensures r < 8
    ensures opcode == 0x8b ==> Encodes(buf, Load32(r, Widened(m)))
    ensures opcode == 0x89 ==> Encodes(buf, Store32(Widened(m), r))
    ensures opcode == 0x8d ==> Encodes(buf, Lea32(r, Widened(m)))
  {
    RegMemIs(buf, opcode);
    NotReg(m);
    ModRmCopied(buf[1..], buf[1..], r, m);
    hide ModRm, ModRm32, RegMem, Widened;
    forall t: bytes | buf <= t && opcode in {0x89, 0x8b, 0x8d}
      ensures opcode == 0x8b ==> Decode(t) == Some((Load32(r, Widened(m)), |buf|))
      ensures opcode == 0x89 ==> Decode(t) == Some((Store32(Widened(m), r), |buf|))
      ensures opcode == 0x8d ==> Decode(t) == Some((Lea32(r, Widened(m)), |buf|))
    {
      assert t[0] == buf[0] && buf[1..] <= t[1..];
      ModRmCopied(buf[1..], t[1..], r, m);
    }
  }
}
