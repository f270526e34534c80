/** The VISCA command encoders of ptz_visca_commands.py: hex templates with one
    `{preset_num_hex}` field, decoded with `bytes.fromhex` into wire frames. */
module ViscaCommands {
  import opened Wrappers
  import opened PyBuiltins

  /** Power commands kept as hex text for later use. */
  const PowerOn: string := "8101040002FF"
  const PowerOff: string := "8101040003FF"

  /** A format string with one `{preset_num_hex}` field, split at that field. */
  datatype Template = Template(head: string, tail: string)

  /** `template.format(preset_num_hex=presetHex)`. */
  function Format(t: Template, presetHex: string): string {
    t.head + presetHex + t.tail
  }

  /** The three memory operations; they differ only in the sub-command. */
  datatype MemoryOp = Reset | Set | Recall

  function TemplateOf(op: MemoryOp): Template {
    match op
    case Reset => Template("8101043F00", "FF")
    case Set => Template("8101043F01", "FF")
    case Recall => Template("8101043F02", "FF")
  }

  function SubCommand(op: MemoryOp): byte {
    match op
    case Reset => 0x00
    case Set => 0x01
    case Recall => 0x02
  }

  /** Address 1, command, category 04 (camera), memory command 3F. */
  const MemoryHeader: seq<byte> := [0x81, 0x01, 0x04, 0x3F]
  const Terminator: byte := 0xFF

  /** The memory frame for an operation carrying the given parameter bytes. */
  function MemoryFrame(op: MemoryOp, param: seq<byte>): (f: seq<byte>)
    ensures |f| == |param| + 6
  {
    MemoryHeader + [SubCommand(op)] + param + [Terminator]
  }

  /** The head of each template decodes to the header and that operation's
      sub-command byte. */
  lemma TemplateHeadDecodes(op: MemoryOp)
    ensures IsHexText(TemplateOf(op).head) && TemplateOf(op).tail == "FF"
    ensures FromHex(TemplateOf(op).head) == Ok(MemoryHeader + [SubCommand(op)])
  {
    match op
    case Reset =>
      MemoryHeadSpelled('0');
      MemoryHeadDecodes('0');
    case Set =>
      MemoryHeadSpelled('1');
      MemoryHeadDecodes('1');
    case Recall =>
      MemoryHeadSpelled('2');
      MemoryHeadDecodes('2');
  }

  lemma MemoryHeadSpelled(d: char)
    ensures "8101043F0" + [d] == ['8', '1', '0', '1', '0', '4', '3', 'F', '0', d]
  {
  }

  /** `bytes.fromhex("8101043F0" + d)` for a sub-command digit d. */
  lemma MemoryHeadDecodes(d: char)
    requires '0' <= d <= '2'
    ensures IsHexText("8101043F0" + [d])
    ensures FromHex("8101043F0" + [d]) == Ok(MemoryHeader + [d as int - '0' as int])
  {
    var sub := d as int - '0' as int;
    var s4 := ['0', d];
    var s3 := "3F" + s4;
    var s2 := "04" + s3;
    var s1 := "01" + s2;
    var s0 := "81" + s1;
    assert s0 == "8101043F0" + [d];
    PairStep(s4, '0', d, []);
    PairStep(s3, '3', 'F', s4);
    PairStep(s2, '0', '4', s3);
    PairStep(s1, '0', '1', s2);
    PairStep(s0, '8', '1', s1);
    assert FromHex(s0).Ok? && FromHex(s0).value == [0x81, 0x01, 0x04, 0x3F, sub];
    assert MemoryHeader + [sub] == [0x81, 0x01, 0x04, 0x3F, sub];
    forall i | 0 <= i < |s0| ensures IsHexDigit(s0[i]) {
      if i == 9 {
        assert s0[i] == d;
      }
    }
  }

  /** Whatever is substituted, the frame is the template head's bytes followed
      by whatever `bytes.fromhex` makes of the rest. */
  lemma {:induction false} FormatDecodes(op: MemoryOp, presetHex: string)
    ensures FromHex(Format(TemplateOf(op), presetHex)) ==
      (match FromHex(presetHex + "FF")
       case Ok(v) => Ok(MemoryHeader + [SubCommand(op)] + v)
       case Err(e) => Err(e))
  {
    var t := TemplateOf(op);
    TemplateHeadDecodes(op);
    assert Format(t, presetHex) == t.head + (presetHex + t.tail);
    FromHexConcat(t.head, presetHex + t.tail);
  }

  /** `bytes.fromhex` of a memory template with presetHex substituted: for a
      text of hex pairs, the memory frame with those bytes as the parameter;
      for a text holding a character that is neither a hex digit nor
      whitespace, ValueError. */
  lemma {:induction false} MemoryEncoding(op: MemoryOp, presetHex: string)
    ensures IsHexText(presetHex) ==>
      && FromHex(presetHex).Ok?
      && FromHex(Format(TemplateOf(op), presetHex)) == Ok(MemoryFrame(op, FromHex(presetHex).value))
    ensures (exists i :: 0 <= i < |presetHex| && !IsHexDigit(presetHex[i]) && !IsAsciiSpace(presetHex[i])) ==>
      FromHex(Format(TemplateOf(op), presetHex)) == Err(ValueError)
  {
    if IsHexText(presetHex) {
      FormatDecodes(op, presetHex);
      FromHexConcat(presetHex, "FF");
      TerminatorDecodes();
      var v := FromHex(presetHex).value;
      assert MemoryHeader + [SubCommand(op)] + (v + [Terminator]) == MemoryFrame(op, v);
    }
    MemoryEncodingRejects(op, presetHex);
  }

  lemma TerminatorDecodes()
    ensures FromHex("FF") == Ok([Terminator])
  {
    FromHexAt("FF", 0);
    assert "FF"[0..] == "FF" && "FF"[2..] == [];
  }

  lemma MemoryEncodingRejects(op: MemoryOp, presetHex: string)
    ensures (exists i :: 0 <= i < |presetHex| && !IsHexDigit(presetHex[i]) && !IsAsciiSpace(presetHex[i])) ==>
      FromHex(Format(TemplateOf(op), presetHex)) == Err(ValueError)
  {
    var t := TemplateOf(op);
    if exists i :: 0 <= i < |presetHex| && !IsHexDigit(presetHex[i]) && !IsAsciiSpace(presetHex[i]) {
      var i :| 0 <= i < |presetHex| && !IsHexDigit(presetHex[i]) && !IsAsciiSpace(presetHex[i]);
      assert Format(t, presetHex)[|t.head| + i] == presetHex[i];
      FromHexRejects(Format(t, presetHex), |t.head| + i);
    }
  }

  /** `CAM_Memory_Recall`, as its template and body intend it to be called:
      with the preset as hex text. */
  function MemoryRecall(presetHex: string): (r: Result<seq<byte>, PyError>)
    ensures IsHexText(presetHex) ==> FromHex(presetHex).Ok? && r == Ok(MemoryFrame(Recall, FromHex(presetHex).value))
    ensures (exists i :: 0 <= i < |presetHex| && !IsHexDigit(presetHex[i]) && !IsAsciiSpace(presetHex[i])) ==>
      r == Err(ValueError)
  {
    MemoryEncoding(Recall, presetHex);
    FromHex(Format(TemplateOf(Recall), presetHex))
  }

  /** `CAM_Memory_Reset`, called as intended. */
  function MemoryReset(presetHex: string): (r: Result<seq<byte>, PyError>)
    ensures IsHexText(presetHex) ==> FromHex(presetHex).Ok? && r == Ok(MemoryFrame(Reset, FromHex(presetHex).value))
    ensures (exists i :: 0 <= i < |presetHex| && !IsHexDigit(presetHex[i]) && !IsAsciiSpace(presetHex[i])) ==>
      r == Err(ValueError)
  {
    MemoryEncoding(Reset, presetHex);
    FromHex(Format(TemplateOf(Reset), presetHex))
  }

  /** `CAM_Memory_Set`, called as intended. */
  function MemorySet(presetHex: string): (r: Result<seq<byte>, PyError>)
    ensures IsHexText(presetHex) ==> FromHex(presetHex).Ok? && r == Ok(MemoryFrame(Set, FromHex(presetHex).value))
    ensures (exists i :: 0 <= i < |presetHex| && !IsHexDigit(presetHex[i]) && !IsAsciiSpace(presetHex[i])) ==>
      r == Err(ValueError)
  {
    MemoryEncoding(Set, presetHex);
    FromHex(Format(TemplateOf(Set), presetHex))
  }

  /** A two-digit preset gives the 7-byte frame 81 01 04 3F 02 pp FF, and byte 5
      written back as hex is the given digits up to letter case. */
  lemma {:induction false} RecallOfHexPair(presetHex: string)
    requires |presetHex| == 2 && IsHexText(presetHex)
    ensures MemoryRecall(presetHex).Ok?
    ensures var f := MemoryRecall(presetHex).value;
      && |f| == 7 && f[..5] == [0x81, 0x01, 0x04, 0x3F, 0x02] && f[6] == 0xFF
      && f[5] == HexDigitValue(presetHex[0]) * 16 + HexDigitValue(presetHex[1])
      && HexByte(f[5]) == LowerAsciiString(presetHex)
  {
    FromHexOfHexText(presetHex);
    assert presetHex[2..] == [];
    var v := FromHex(presetHex).value;
    assert |v| == 1 && v[0] == HexDigitValue(presetHex[0]) * 16 + HexDigitValue(presetHex[1]);
    assert ToHex(v) == HexByte(v[0]) + ToHex([]);
  }

  /** The three encoders succeed or fail together, and when they succeed their
      frames have the same length and agree on every byte but the sub-command
      at index 4, which is 02, 00 and 01 for recall, reset and set. */
  lemma EncodersDifferOnlyInSubCommand(presetHex: string)
    ensures MemoryRecall(presetHex).Ok? == MemoryReset(presetHex).Ok? == MemorySet(presetHex).Ok?
    ensures MemoryRecall(presetHex).Ok? ==>
      var rc, rs, st := MemoryRecall(presetHex).value, MemoryReset(presetHex).value, MemorySet(presetHex).value;
      && |rc| == |rs| == |st| >= 6
      && rc[4] == 0x02 && rs[4] == 0x00 && st[4] == 0x01
      && forall i :: 0 <= i < |rc| && i != 4 ==> rc[i] == rs[i] == st[i]
  {
    FormatDecodes(Recall, presetHex);
    FormatDecodes(Reset, presetHex);
    FormatDecodes(Set, presetHex);
    var x := presetHex + "FF";
    assert x[|x| - 1] == 'F';
    FromHexNonEmpty(x, |x| - 1);
  }

  /** Every frame an encoder produces from hex text starts with 81 01 04 3F and
      ends with FF. */
  lemma FrameHeaderAndTerminator(op: MemoryOp, presetHex: string)
    requires IsHexText(presetHex)
    ensures var f := FromHex(Format(TemplateOf(op), presetHex));
      && f.Ok? && |f.value| >= 6 && f.value[..4] == [0x81, 0x01, 0x04, 0x3F] && f.value[|f.value| - 1] == 0xFF
  {
    MemoryEncoding(op, presetHex);
  }

  /** The power commands decode to fixed 6-byte frames. */
  lemma PowerFrames()
    ensures FromHex(PowerOn) == Ok([0x81, 0x01, 0x04, 0x00, 0x02, 0xFF])
    ensures FromHex(PowerOff) == Ok([0x81, 0x01, 0x04, 0x00, 0x03, 0xFF])
  {
    assert PowerOn == "810104000" + ['2'] + "FF" && PowerOff == "810104000" + ['3'] + "FF";
    PowerFrame('2');
    PowerFrame('3');
  }

  /** One pair in front of a text that decodes. */
  lemma PairStep(s: string, hi: char, lo: char, rest: string)
    requires IsHexDigit(hi) && IsHexDigit(lo) && s == [hi, lo] + rest && FromHex(rest).Ok?
    ensures FromHex(s).Ok? && FromHex(s).value == [HexDigitValue(hi) * 16 + HexDigitValue(lo)] + FromHex(rest).value
  {
    assert s[2..] == rest;
    FromHexFront(s);
  }

  /** `bytes.fromhex("810104000" + d + "FF")` for a power digit d. */
  lemma PowerFrame(d: char)
    requires '2' <= d <= '3'
    ensures FromHex("810104000" + [d] + "FF") == Ok([0x81, 0x01, 0x04, 0x00, d as int - '0' as int, 0xFF])
  {
    var sub := d as int - '0' as int;
    var s5 := "FF";
    var s4 := ['0', d] + s5;
    var s3 := "00" + s4;
    var s2 := "04" + s3;
    var s1 := "01" + s2;
    var s0 := "81" + s1;
    assert s0 == "810104000" + [d] + "FF";
    PairStep(s5, 'F', 'F', []);
    PairStep(s4, '0', d, s5);
    PairStep(s3, '0', '0', s4);
    PairStep(s2, '0', '4', s3);
    PairStep(s1, '0', '1', s2);
    PairStep(s0, '8', '1', s1);
    assert FromHex(s0).Ok? && FromHex(s0).value == [0x81, 0x01, 0x04, 0x00, sub, 0xFF];
  }

  // ---------------------------------------------------------------------------
  // The encoders as declared

  /** What `str()` gives for the class, which Python passes as `preset_hex`.
      The module part is `ptz_visca_commands` when the file is imported and
      `__main__` when it runs as a script; only the leading `<` matters to
      `fromhex`. */
  function ClassText(moduleName: string): string {
    "<class '" + moduleName + ".PTZViscaCommands'>"
  }

  /** A call of one of the encoders as the file declares them: a `classmethod`
      whose only parameter receives the class, so a caller's argument is one
      too many (TypeError), and without one the class's text lands in the hex
      string. */
  function EncoderCallAsDeclared(op: MemoryOp, moduleName: string, args: seq<string>): Result<seq<byte>, PyError> {
    if |args| > 0 then Err(TypeError) else FromHex(Format(TemplateOf(op), ClassText(moduleName)))
  }

  /** No call of the declared encoders produces a frame. */
  lemma EncoderCallAlwaysRaises(op: MemoryOp, moduleName: string, args: seq<string>)
    ensures EncoderCallAsDeclared(op, moduleName, args) == if |args| > 0 then Err(TypeError) else Err(ValueError)
  {
    if |args| == 0 {
      assert ClassText(moduleName)[0] == '<';
      MemoryEncoding(op, ClassText(moduleName));
    }
  }
}
