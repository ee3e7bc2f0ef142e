/** P-code operations and the varnodes they read and write. */
module Pcode {

  datatype OpCode = Copy | MultiEqual | Subpiece | Load | Store | Call | CallInd | OtherOp

  // ----- what constant propagation knows about a varnode

  datatype Height = Top | Constant | SpConstant | PcConstant | TopEven | TopOdd | Bottom

  type Int64 = v: int | -0x8000_0000_0000_0000 <= v < 0x8000_0000_0000_0000

  datatype ValueType = ValueType(height: Height, v: Int64) {
    predicate IsConstant() { height == Constant }
    predicate IsGenConstant() { height == Constant || height == SpConstant || height == PcConstant }
  }

  // ----- varnodes and operations

  /** The register number of a varnode's address, or -1. */
  type Register = r: int | -1 <= r < 32 witness -1

  class Varnode {
    const reg: Register
    var kind: ValueType
    var def: PcodeOp?

    constructor (r: Register, kind: ValueType)
      ensures reg == r && this.kind == kind && def == null
    {
      reg, this.kind, def := r, kind, null;
    }
  }

  /** The function that an operation calls, when it is known. */
  datatype Callee = Unknown | Function(isNoReturn: bool)

  class PcodeOp {
    const opcode: OpCode
    const inrefs: seq<Varnode>
    const output: Varnode?
    const callfd: Callee
    var liveGen: set<nat>
    var liveKill: set<nat>
    var liveIn: set<nat>
    var liveOut: set<nat>

    constructor (opcode: OpCode, inrefs: seq<Varnode>, output: Varnode?, callfd: Callee)
      ensures this.opcode == opcode && this.inrefs == inrefs && this.output == output && this.callfd == callfd
      ensures liveGen == {} && liveKill == {} && liveIn == {} && liveOut == {}
    {
      this.opcode, this.inrefs, this.output, this.callfd := opcode, inrefs, output, callfd;
      liveGen, liveKill, liveIn, liveOut := {}, {}, {}, {};
    }

    predicate IsCall() { opcode == Call || opcode == CallInd || callfd.Function? }

    /** The third input, which stands for the memory that a load or store touches. */
    function VirtualNode(): Varnode? {
      if |inrefs| == 3 then inrefs[2] else null
    }
  }
}
