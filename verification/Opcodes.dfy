/** The byte encodings of include/core/opcodes.hh and src/core/opcodes.cc. Registers are numbered EAX = 0 to R15D = 15. */
module Opcodes {
  import opened Wrappers
  import opened Emit

  const ESP: nat := 4
  const R11: nat := 11

  function PushAx(): bytes { [0x66, 0x50] }

  function PushR11(): bytes { [0x41, 0x53] }

  function LeaR11Rip(): bytes { [0x4c, 0x8d, 0x1d, 0, 0, 0, 0] }

  function LeaRspRsp4(): bytes { [0x48, 0x8d, 0x64, 0x24, 0x04] }

  function JmpMemRip(): bytes { [0xff, 0x25, 0, 0, 0, 0] }

  function JmpRel32(): bytes { [0xe9, 0, 0, 0, 0] }

  /** mov [rsp], r32 */
  function MovMemRspR32(r: nat): bytes
    requires r < 16
  {
    (if r >= 8 then [0x44] else []) + [0x89, 0x04 + r % 8 * 8, 0x24]
  }

  /** mov r32, [rsp] */
  function MovR32MemRsp(r: nat): bytes
    requires r < 16
  {
    (if r >= 8 then [0x44] else []) + [0x8b, 0x04 + r % 8 * 8, 0x24]
  }

  /** mov dword [rsp], imm32 */
  function MovMemRspImm(imm: uint32): bytes
  {
    [0xc7, 0x04, 0x24] + Le(4, imm)
  }

  /** jmp r64 */
  function JmpR64(r: nat): bytes
    requires r < 16
  {
    (if r >= 8 then [0x41] else []) + [0xff, 0xe0 + r % 8]
  }

  /** lea r32, [rip + disp32] */
  function LeaR32Rip(r: nat): bytes
    requires r < 8
  {
    [0x8d, 0x05 + r * 8, 0, 0, 0, 0]
  }

  /** mov r32, imm32 */
  function MovR32Imm(r: nat, imm: uint32): bytes
    requires r < 8
  {
    [0xb8 + r] + Le(4, imm)
  }

  /** inc r32 and dec r32 in their two-byte form: the one-byte form is a prefix in 64-bit mode. */
  function IncR32(r: nat): bytes
    requires r < 8
  {
    [0xff, 0xc0 + r]
  }

  function DecR32(r: nat): bytes
    requires r < 8
  {
    [0xff, 0xc8 + r]
  }
}
