/** Tokenised lines of AArch64 code. The same instruction type serves the disassembly that is
    read and the assembly that is written: only the operands that name an address differ. */
module Assembly {
  import opened Numerals

  datatype Option<+T> = None | Some(value: T)

  /** Architectural registers: `w8` and `x8` both name X(8), `d3` and `s3` both name V(3). */
  datatype Reg = X(n: nat) | V(n: nat) | Sp | Flags

  /** How the operands of an add, or the loaded register of a load, are spelled. */
  datatype View = XView | WView | QView | DView | SView | HView | BView

  /** The `<...>` annotation objdump prints behind an address. */
  datatype SymRef =
    | Plain(sym: string)
    | Plt(sym: string)
    | Offset(sym: string, off: HexText)
    | Base(sym: string)
    | BaseOffset(sym: string, off: HexText)

  datatype Ref =
    | Address(text: HexText, via: SymRef)  // disassembly: 4455a4 <sin+0x58>
    | Hole(text: HexText)                  // not resolved yet: ?14a000
    | Label(text: HexText)                 // L4455a4
    | Symbol(name: string)                 // an imported name

  datatype Imm =
    | Hex(h: HexText)        // #0x8d8
    | Dec(d: DecText)        // #2912
    | Lo12(text: string)    // #:lo12:L14a8d8

  datatype JumpKind = B | Bl | BCond(cond: string)
  datatype TestKind = Cbz | Cbnz | Tbz(bit: nat) | Tbnz(bit: nat)

  datatype Inst =
    | Jump(kind: JumpKind, to: Ref)
    | Test(test: TestKind, reg: Reg, to: Ref)
    | Adrp(rd: Reg, page: Ref)
    | Adr(rd: Reg, at: Ref)
    | Add(view: View, rd: Reg, rn: Reg, imm: Imm)
    | Ldr(view: View, rt: Reg, rn: Reg, imm: Imm)  // ldr rt, [rn,#imm]
    | LdrBare(view: View, rt: Reg, rn: Reg)        // ldr rt, [rn]
    | Indirect(name: string, reg: Reg)     // br, blr: branches through a register
    | Op(text: string, uses: seq<Reg>, defs: seq<Reg>)  // any other, falling through
    | Nullary(name: string)                // an instruction without operands

  /** A line of code: a header of the listing with its address, the bare symbol that is printed
      for it, an instruction, or a line for the assembler; `at` is the text between the `L` and
      the colon. */
  datatype Line = Head(at: HexText, sym: string) | Def(sym: string) | Code(at: HexText, inst: Inst) | Directive(text: string)

  /** The address that hexadecimal text denotes. */
  function Address16(s: HexText): nat { ValueOf(s, 16) }
}
