/**
 * The `da-rv32` and `da-rv64` resolvers: an instruction word is replaced by
 * its RISC-V disassembly, followed by the word in hexadecimal.
 *
 * The instruction decoder and its tables are a foreign library; each
 * decoder enters the model as a function from a word and a width to the
 * decoded text or an error.
 */
module Disasm {
  import opened Wrappers
  import Format
  import Utils
  import opened Lexer

  datatype Disassembler = Disassembler(decode: (nat, nat) -> Result<string, string>, instrLen: nat)

  datatype DisasmAnnotater = DisasmAnnotater(rv32: Disassembler, rv64: Disassembler)

  const KEYS: seq<string> := ["da-rv32", "da-rv64"]

  /** `new`: both decoders are asked for 32-bit instructions. */
  function New(rv32Decode: (nat, nat) -> Result<string, string>, rv64Decode: (nat, nat) -> Result<string, string>): (d: DisasmAnnotater)
    ensures d.rv32.decode == rv32Decode && d.rv64.decode == rv64Decode
    ensures d.rv32.instrLen == 32 && d.rv64.instrLen == 32
  {
    DisasmAnnotater(Disassembler(rv32Decode, 32), Disassembler(rv64Decode, 32))
  }

  /** The decoder a key selects. */
  function Select(d: DisasmAnnotater, kind: string): (dis: Disassembler)
    requires kind in KEYS
    ensures kind == "da-rv32" ==> dis == d.rv32
    ensures kind == "da-rv64" ==> dis == d.rv64
  {
    if kind == "da-rv32" then d.rv32 else d.rv64
  }

  /** `annotate`: an unparseable word is skipped, an undecodable one is `?`; the word follows in hex. */
  function Annotate(d: DisasmAnnotater, p: Placeholder): (r: Result<Option<string>, string>)
    requires p.kind in KEYS
    ensures r.Ok?
    ensures r.value.None? <==> Utils.StringToU128(p.value).Err?
    ensures r.value.Some? ==>
              var val := Utils.StringToU128(p.value).value;
              var dis := Select(d, p.kind);
              r.value.value == (match dis.decode(val, dis.instrLen) case Ok(instr) => instr case Err(_) => "?")
                               + " (0x" + Format.Hex08(val) + ")"
  {
    var dis := Select(d, p.kind);
    match Utils.StringToU128(p.value)
    case Err(_) => Ok(None)
    case Ok(val) =>
      var instr := match dis.decode(val, dis.instrLen) case Ok(instr) => instr case Err(_) => "?";
      Ok(Some(instr + " (0x" + Format.Hex08(val) + ")"))
  }

  /** The word written after the disassembly reads back as the word that was decoded. */
  lemma AnnotatedWordReadsBack(d: DisasmAnnotater, p: Placeholder)
    requires p.kind in KEYS
    requires Utils.StringToU128(p.value).Ok?
    ensures exists text, hex :: Annotate(d, p) == Ok(Some(text + " (0x" + hex + ")"))
                             && Utils.StringToU128("0x" + hex) == Utils.StringToU128(p.value)
  {
    var val := Utils.StringToU128(p.value).value;
    Utils.HexRoundTrip(val);
    var dis := Select(d, p.kind);
    var text := match dis.decode(val, dis.instrLen) case Ok(instr) => instr case Err(_) => "?";
    var hex := Format.Hex08(val);
    assert Annotate(d, p) == Ok(Some(text + " (0x" + hex + ")"));
  }

  /** An `rv32` annotation does not depend on the `rv64` decoder, and the other way round. */
  lemma KeysAreIndependent(d: DisasmAnnotater, e: DisasmAnnotater, p: Placeholder)
    requires p.kind in KEYS
    requires p.kind == "da-rv32" ==> d.rv32 == e.rv32
    requires p.kind == "da-rv64" ==> d.rv64 == e.rv64
    ensures Annotate(d, p) == Annotate(e, p)
  {
    assert Select(d, p.kind) == Select(e, p.kind);
  }

  /** A word written as `0x` and eight hex digits comes back decoded, with the same eight digits. */
  lemma HexWordExample(d: DisasmAnnotater, kind: string, word: nat, instr: string)
    requires kind in KEYS && word < Utils.U128_LIMIT
    requires Select(d, kind).decode(word, 32) == Ok(instr)
    requires Select(d, kind).instrLen == 32
    ensures Annotate(d, Placeholder(kind, "0x" + Format.Hex08(word)))
         == Ok(Some(instr + " (0x" + Format.Hex08(word) + ")"))
  {
    Utils.HexRoundTrip(word);
  }
}
