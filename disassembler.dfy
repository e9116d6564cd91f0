/** CDisassembler: turning a function's bytes into signature text. The Zydis
    decoder is an input: a function from the machine mode and the bytes left
    to the next decoded instruction, of which only the fields the signature
    generator reads are kept. */
module Disassembler {
  import opened Common
  import opened Pattern
  import opened SignatureText

  /** The fields of a `ZydisDecodedInstruction` that the generator reads. */
  datatype Instr = Instr(
    length: nat,         // instruction.length
    isRelative: bool,    // attributes & ZYDIS_ATTRIB_IS_RELATIVE
    immIsRelative: bool, // raw.imm[0].is_relative
    immOffset: nat,      // raw.imm[0].offset, in bytes from the instruction start
    immSizeBits: nat,    // raw.imm[0].size, in bits
    dispOffset: nat,     // raw.disp.offset
    dispSizeBits: nat)   // raw.disp.size, in bits

  /** `ZydisDecoderDecodeInstruction`: machine mode (true for 64-bit long
      mode) and the bytes from the current offset to the end of the code;
      None when decoding fails. */
  type Decoder = (bool, seq<Byte>) -> Option<Instr>

  /** One call of the decoder. Zydis never reports success with a length
      outside `1..|rest|`; such an answer of the oracle is read as a failure. */
  function DecodeNext(decode: Decoder, isX64: bool, rest: seq<Byte>): (r: Option<Instr>)
    ensures r.Some? ==> 1 <= r.value.length <= |rest| && r == decode(isX64, rest)
  {
    var d := decode(isX64, rest);
    if d.Some? && 1 <= d.value.length <= |rest| then d else None
  }

  /** (relativeOperandOffset, relativeOperandSize) in bytes: the relative
      immediate is used when there is one, else a non-empty displacement. */
  function RelOperand(ins: Instr): (nat, nat) {
    if !ins.isRelative then (0, 0)
    else if ins.immIsRelative then (ins.immOffset, ins.immSizeBits / 8)
    else if ins.dispSizeBits > 0 then (ins.dispOffset, ins.dispSizeBits / 8)
    else (0, 0)
  }

  /** Byte `i` of the instruction is printed as `??`. */
  predicate IsWildcard(ins: Instr, i: nat) {
    ins.isRelative && RelOperand(ins).1 > 0 && RelOperand(ins).0 <= i < RelOperand(ins).0 + RelOperand(ins).1
  }

  /** The token for byte `i` of the instruction decoded at `offset`. */
  function TokenAt(code: seq<Byte>, offset: nat, ins: Instr, i: nat): PatByte
    requires offset + i < |code|
  {
    if IsWildcard(ins, i) then Any else Exact(code[offset + i])
  }

  function InstrTokens(code: seq<Byte>, offset: nat, ins: Instr): seq<PatByte>
    requires offset + ins.length <= |code|
  {
    seq(ins.length, i requires 0 <= i < ins.length => TokenAt(code, offset, ins, i))
  }

  /** The tokens of every instruction decoded from `offset` on, until the end
      of the code or the first failed decode. */
  function TokensFrom(code: seq<Byte>, isX64: bool, decode: Decoder, offset: nat): seq<PatByte>
    requires offset <= |code|
    decreases |code| - offset
  {
    if offset == |code| then []
    else match DecodeNext(decode, isX64, code[offset..])
      case None => []
      case Some(ins) => InstrTokens(code, offset, ins) + TokensFrom(code, isX64, decode, offset + ins.length)
  }

  /** The signature text of a function's code. */
  function Signature(code: seq<Byte>, isX64: bool, decode: Decoder): string {
    Render(TokensFrom(code, isX64, decode, 0))
  }

  /** `AnalyzeFuncGenerateSignature`: decode instruction after instruction
      until the end of the code or a failed decode, writing one token per
      byte into the stream. */
  method GenerateSignature(code: seq<Byte>, isX64: bool, decode: Decoder) returns (pattern: string)
    ensures pattern == Signature(code, isX64, decode)
  {
    var offset: nat := 0;
    pattern := "";
    ghost var done: seq<PatByte> := [];
    while offset < |code|
      invariant Decoded(code, isX64, decode, offset, pattern, done)
      decreases |code| - offset
    {
      var next := DecodeNext(decode, isX64, code[offset..]);
      if next.None? {
        break;
      }
      pattern, done := DecodeStep(code, isX64, decode, offset, next.value, pattern, done);
      offset := offset + next.value.length;
    }
    DecodedAll(code, isX64, decode, offset, pattern, done);
  }

  /** The loop state after decoding up to `offset`: `done` holds the tokens
      so far, `pattern` their text, and the rest of the tokens are those
      from `offset` on. */
  ghost predicate Decoded(code: seq<Byte>, isX64: bool, decode: Decoder, offset: nat,
                          pattern: string, done: seq<PatByte>) {
    && offset <= |code|
    && |done| == offset
    && pattern == Render(done)
    && done + TokensFrom(code, isX64, decode, offset) == TokensFrom(code, isX64, decode, 0)
  }

  /** The loop stops at the end of the code or at a failed decode, with
      every token written. */
  lemma DecodedAll(code: seq<Byte>, isX64: bool, decode: Decoder, offset: nat,
                   pattern: string, done: seq<PatByte>)
    requires Decoded(code, isX64, decode, offset, pattern, done)
    requires offset == |code| || DecodeNext(decode, isX64, code[offset..]).None?
    ensures pattern == Signature(code, isX64, decode)
  {
    assert done + [] == done;
  }

  /** One turn of the decode loop: the instruction's tokens are appended. */
  method DecodeStep(code: seq<Byte>, isX64: bool, decode: Decoder, offset: nat, ins: Instr,
                    pattern: string, ghost done: seq<PatByte>)
    returns (out: string, ghost done': seq<PatByte>)
    requires offset < |code| && DecodeNext(decode, isX64, code[offset..]) == Some(ins)
    requires Decoded(code, isX64, decode, offset, pattern, done)
    ensures Decoded(code, isX64, decode, offset + ins.length, out, done')
  {
    out := AppendInstruction(code, offset, ins, pattern, done);
    TokensFromStep(code, isX64, decode, offset, done, TokensFrom(code, isX64, decode, 0));
    done' := done + InstrTokens(code, offset, ins);
  }

  lemma TokensFromStep(code: seq<Byte>, isX64: bool, decode: Decoder, offset: nat,
                       done: seq<PatByte>, all: seq<PatByte>)
    requires offset < |code| && DecodeNext(decode, isX64, code[offset..]).Some?
    requires done + TokensFrom(code, isX64, decode, offset) == all
    ensures var ins := DecodeNext(decode, isX64, code[offset..]).value;
      done + InstrTokens(code, offset, ins) + TokensFrom(code, isX64, decode, offset + ins.length) == all
  {
    var ins := DecodeNext(decode, isX64, code[offset..]).value;
    var toks := InstrTokens(code, offset, ins);
    var rest := TokensFrom(code, isX64, decode, offset + ins.length);
    assert TokensFrom(code, isX64, decode, offset) == toks + rest;
    assert (done + toks) + rest == done + (toks + rest);
  }

  /** The body of the decode loop for one instruction: a space unless it is
      the first one, then its bytes, `??` inside the relative operand and two
      hexadecimal digits elsewhere, separated by single spaces. */
  method AppendInstruction(code: seq<Byte>, offset: nat, ins: Instr, pattern: string, ghost done: seq<PatByte>)
    returns (out: string)
    requires 1 <= ins.length && offset + ins.length <= |code|
    requires |done| == offset && pattern == Render(done)
    ensures out == Render(done + InstrTokens(code, offset, ins))
  {
    out := pattern;
    if offset > 0 {
      out := out + " ";
    }
    var rel := RelOperand(ins);
    var relOffset, relSize := rel.0, rel.1;
    ghost var toks := InstrTokens(code, offset, ins);
    var i: nat := 0;
    assert done + toks[..0] == done;
    while i < ins.length
      invariant i <= ins.length
      invariant Appended(out, done + toks[..i], i < ins.length)
    {
      out := AppendByte(code, offset, ins, relOffset, relSize, i, out, done);
      i := i + 1;
    }
    assert toks[..i] == toks;
  }

  /** One turn of the byte loop: the token of byte `i`, `??` inside the
      relative operand, then a space when more bytes follow. */
  method AppendByte(code: seq<Byte>, offset: nat, ins: Instr, relOffset: nat, relSize: nat, i: nat,
                    out: string, ghost done: seq<PatByte>)
    returns (out': string)
    requires i < ins.length && offset + ins.length <= |code|
    requires (relOffset, relSize) == RelOperand(ins)
    requires Appended(out, done + InstrTokens(code, offset, ins)[..i], true)
    ensures Appended(out', done + InstrTokens(code, offset, ins)[..i + 1], i + 1 < ins.length)
  {
    ghost var toks := InstrTokens(code, offset, ins);
    var tok := if ins.isRelative && relSize > 0 && relOffset <= i < relOffset + relSize
      then Any else Exact(code[offset + i]);
    assert tok == toks[i];
    assert done + toks[..i + 1] == (done + toks[..i]) + [tok] by {
      assert toks[..i + 1] == toks[..i] + [toks[i]];
    }
    out' := AppendToken(out, done + toks[..i], tok, i + 1 < ins.length);
  }

  /** The text written so far: the tokens of `acc`, then a separating space
      when more tokens follow. */
  ghost predicate Appended(out: string, acc: seq<PatByte>, more: bool) {
    out == Render(acc) + (if |acc| > 0 && more then " " else "")
  }

  /** Write one token, and a space after it when the instruction has more
      bytes. */
  method AppendToken(out: string, ghost acc: seq<PatByte>, tok: PatByte, more: bool) returns (out': string)
    requires Appended(out, acc, true)
    ensures Appended(out', acc + [tok], more)
  {
    RenderSnoc(acc, tok);
    out' := out + TokenText(tok);
    if more {
      out' := out' + " ";
    }
  }

  /** The signature is empty exactly when there is no code or the first
      instruction cannot be decoded. */
  lemma SignatureEmpty(code: seq<Byte>, isX64: bool, decode: Decoder)
    ensures Signature(code, isX64, decode) == ""
        <==> |code| == 0 || DecodeNext(decode, isX64, code).None?
  {
    assert code[0..] == code;
    var ts := TokensFrom(code, isX64, decode, 0);
    RenderLength(ts);
  }

  /** Every token stands for a byte of the code it was generated from: the
      tokens from `offset` on match the code at `offset`, and there are
      never more tokens than bytes. */
  lemma {:induction false} TokensMatchCode(code: seq<Byte>, isX64: bool, decode: Decoder, offset: nat)
    requires offset <= |code|
    ensures MatchesAt(code, TokensFrom(code, isX64, decode, offset), offset)
    decreases |code| - offset
  {
    if offset < |code| {
      match DecodeNext(decode, isX64, code[offset..])
      case None =>
      case Some(ins) =>
        InstrTokensMatch(code, offset, ins);
        TokensMatchCode(code, isX64, decode, offset + ins.length);
        MatchesConcat(code, InstrTokens(code, offset, ins), TokensFrom(code, isX64, decode, offset + ins.length), offset);
    }
  }

  /** The tokens of one instruction match its bytes. */
  lemma InstrTokensMatch(code: seq<Byte>, offset: nat, ins: Instr)
    requires offset + ins.length <= |code|
    ensures MatchesAt(code, InstrTokens(code, offset, ins), offset)
  {
    var toks := InstrTokens(code, offset, ins);
    forall i | 0 <= i < |toks|
      ensures ByteMatches(toks[i], code[offset + i])
    {
      assert toks[i] == TokenAt(code, offset, ins, i);
    }
  }

  /** The signature text of a function, read back, is a pattern that matches
      the function's own bytes. */
  lemma SignatureMatchesCode(code: seq<Byte>, isX64: bool, decode: Decoder)
    ensures var ts := Parse(Signature(code, isX64, decode));
      ts.Some? && MatchesAt(code, ts.value, 0)
  {
    ParseRender(TokensFrom(code, isX64, decode, 0));
    TokensMatchCode(code, isX64, decode, 0);
  }

  /** The wildcard rule, per instruction: byte `i` of an instruction decoded at
      `offset` becomes `??` exactly when the instruction is relative, its
      relative operand (the relative immediate if any, otherwise a non-empty
      displacement, with the size turned from bits into bytes) is non-empty
      and covers `i`; otherwise it is the code byte itself. */
  lemma WildcardRule(code: seq<Byte>, isX64: bool, decode: Decoder, offset: nat, i: nat)
    requires offset < |code|
    requires DecodeNext(decode, isX64, code[offset..]).Some?
    requires i < DecodeNext(decode, isX64, code[offset..]).value.length
    ensures var ins := DecodeNext(decode, isX64, code[offset..]).value;
      var (off, size) :=
        if ins.immIsRelative then (ins.immOffset, ins.immSizeBits / 8)
        else if ins.dispSizeBits > 0 then (ins.dispOffset, ins.dispSizeBits / 8)
        else (0, 0);
      TokensFrom(code, isX64, decode, offset)[i]
        == if ins.isRelative && size > 0 && off <= i < off + size then Any else Exact(code[offset + i])
  {
  }
}
