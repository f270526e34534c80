/** ptz_visca.py: the PTZCommands constants and PTZViscaSocket, one TCP link to
    a camera that recalls presets and waits for the completion frame. */
module PtzVisca {
  import opened Wrappers
  import opened PyBuiltins
  import ViscaCommands

  // ---------------------------------------------------------------------------
  // PTZCommands

  const PowerOnCommand: string := "8101040002FF"
  const PowerOffCommand: string := "8101040003FF"
  const MemoryResetTemplate: ViscaCommands.Template := ViscaCommands.Template("8101043F00", "FF")
  const MemorySetTemplate: ViscaCommands.Template := ViscaCommands.Template("8101043F01", "FF")
  const MemoryRecallTemplate: ViscaCommands.Template := ViscaCommands.Template("8101043F02", "FF")

  /** `b'\x90Q\xff'` and `b'\x90R\xff'`: completion on socket 1 and socket 2. */
  const CompletionQ: seq<byte> := [0x90, 0x51, 0xFF]
  const CompletionR: seq<byte> := [0x90, 0x52, 0xFF]

  /** The templates here substitute like the encoders of the commands file:
      both fail or both succeed, and their frames agree on every byte except
      the sub-command at index 4 (00 reset, 01 set, 02 recall). The power
      commands are the same text in both files. */
  lemma TemplatesDifferOnlyInSubCommand(presetHex: string)
    ensures PowerOnCommand == ViscaCommands.PowerOn && PowerOffCommand == ViscaCommands.PowerOff
    ensures
      var rc := FromHex(ViscaCommands.Format(MemoryRecallTemplate, presetHex));
      var rs := FromHex(ViscaCommands.Format(MemoryResetTemplate, presetHex));
      var st := FromHex(ViscaCommands.Format(MemorySetTemplate, presetHex));
      && rc.Ok? == rs.Ok? == st.Ok?
      && (rc.Ok? ==>
            && |rc.value| == |rs.value| == |st.value| >= 6
            && rc.value[4] == 0x02 && rs.value[4] == 0x00 && st.value[4] == 0x01
            && forall i :: 0 <= i < |rc.value| && i != 4 ==> rc.value[i] == rs.value[i] == st.value[i])
  {
    assert MemoryRecallTemplate == ViscaCommands.TemplateOf(ViscaCommands.Recall);
    assert MemoryResetTemplate == ViscaCommands.TemplateOf(ViscaCommands.Reset);
    assert MemorySetTemplate == ViscaCommands.TemplateOf(ViscaCommands.Set);
    ViscaCommands.EncodersDifferOnlyInSubCommand(presetHex);
  }

  // ---------------------------------------------------------------------------
  // The preset's hex digits, as change_preset derives them

  /** The presets whose `repr(chr(n))` is a `\xhh` escape. */
  predicate HasHexEscape(n: int) {
    0 <= n <= 8 || n == 11 || n == 12 || 14 <= n <= 31 || n == 127
  }

  /** `repr(chr(preset_num)).strip("'")[2:]`. */
  function PresetHexAsWritten(presetNum: int): string
    requires 0 <= presetNum <= 127
  {
    SliceFrom(Strip(ReprChr(presetNum), '\''), 2)
  }

  /** The derivation gives the two hex digits only for the `\xhh` escapes; a
      single quote gives a double quote, and every other preset gives "". */
  lemma PresetHexCases(n: int)
    requires 0 <= n <= 127
    ensures HasHexEscape(n) ==> PresetHexAsWritten(n) == HexByte(n)
    ensures n == 39 ==> PresetHexAsWritten(n) == "\""
    ensures !HasHexEscape(n) && n != 39 ==> PresetHexAsWritten(n) == ""
  {
    if n == 39 {
      assert Strip(ReprChr(n), '\'') == "\"'\"";
    } else if HasHexEscape(n) {
      EscapedPresetHex(n);
    } else {
      UnescapedPresetHex(n);
    }
  }

  lemma EscapedPresetHex(n: int)
    requires 0 <= n <= 127 && HasHexEscape(n)
    ensures PresetHexAsWritten(n) == HexByte(n)
  {
    assert n != 92 && n != 9 && n != 10 && n != 13 && (n < 32 || n == 127);
    var body := ReprBody(n);
    assert body == "\\x" + HexByte(n);
    assert ReprChr(n) == "'" + body + "'";
    StripQuoted(body);
    assert body[2..] == HexByte(n);
  }

  lemma UnescapedPresetHex(n: int)
    requires 0 <= n <= 127 && !HasHexEscape(n) && n != 39
    ensures PresetHexAsWritten(n) == ""
  {
    assert n == 9 || n == 10 || n == 13 || 32 <= n < 127;
    var body := ReprBody(n);
    assert ReprChr(n) == "'" + body + "'";
    StripQuoted(body);
    assert |body| <= 2;
  }

  /** The bytes change_preset sends: the recall template decoded with the
      derived digits. */
  function RecallData(presetNum: int): Result<seq<byte>, PyError>
    requires 0 <= presetNum <= 127
  {
    FromHex(ViscaCommands.Format(MemoryRecallTemplate, PresetHexAsWritten(presetNum)))
  }

  /** What change_preset actually sends: the 7-byte recall frame with the
      preset as byte 5 for the `\xhh` escapes; ValueError for 39; and for every
      other preset a 6-byte frame with no preset byte at all. */
  lemma RecallDataAsWritten(n: int)
    requires 0 <= n <= 127
    ensures HasHexEscape(n) ==> RecallData(n) == Ok([0x81, 0x01, 0x04, 0x3F, 0x02, n, 0xFF])
    ensures n == 39 ==> RecallData(n) == Err(ValueError)
    ensures !HasHexEscape(n) && n != 39 ==> RecallData(n) == Ok([0x81, 0x01, 0x04, 0x3F, 0x02, 0xFF])
  {
    if HasHexEscape(n) {
      EscapedRecallData(n);
    } else if n == 39 {
      QuoteRecallData();
    } else {
      UnescapedRecallData(n);
    }
  }

  lemma EscapedRecallData(n: int)
    requires 0 <= n <= 127 && HasHexEscape(n)
    ensures RecallData(n) == Ok([0x81, 0x01, 0x04, 0x3F, 0x02, n, 0xFF])
  {
    EscapedPresetHex(n);
    RecallOfHexByte(n);
  }

  /** The recall template with the two digits of byte b decodes to the 7-byte
      frame carrying b. */
  lemma RecallOfHexByte(b: byte)
    ensures FromHex(ViscaCommands.Format(MemoryRecallTemplate, HexByte(b))) == Ok([0x81, 0x01, 0x04, 0x3F, 0x02, b, 0xFF])
  {
    RecallOfHexText(HexByte(b));
    HexByteDecodes(b);
    assert [0x81, 0x01, 0x04, 0x3F, 0x02] + [b] + [0xFF] == [0x81, 0x01, 0x04, 0x3F, 0x02, b, 0xFF];
  }

  lemma QuoteRecallData()
    ensures RecallData(39) == Err(ValueError)
  {
    PresetHexCases(39);
    var h := PresetHexAsWritten(39);
    assert h == "\"" && !IsHexDigit(h[0]) && !IsAsciiSpace(h[0]);
    ViscaCommands.MemoryEncodingRejects(ViscaCommands.Recall, h);
    assert MemoryRecallTemplate == ViscaCommands.TemplateOf(ViscaCommands.Recall);
  }

  lemma UnescapedRecallData(n: int)
    requires 0 <= n <= 127 && !HasHexEscape(n) && n != 39
    ensures RecallData(n) == Ok([0x81, 0x01, 0x04, 0x3F, 0x02, 0xFF])
  {
    UnescapedPresetHex(n);
    RecallOfHexText("");
    var none: seq<byte> := [];
    assert FromHex("") == Ok(none);
    assert [0x81, 0x01, 0x04, 0x3F, 0x02] + none + [0xFF] == [0x81, 0x01, 0x04, 0x3F, 0x02, 0xFF];
  }

  /** Decoding the recall template with hex text h gives the recall frame
      carrying h's bytes. */
  lemma RecallOfHexText(h: string)
    ensures IsHexText(h) ==>
      && FromHex(h).Ok?
      && FromHex(ViscaCommands.Format(MemoryRecallTemplate, h)) ==
           Ok([0x81, 0x01, 0x04, 0x3F, 0x02] + FromHex(h).value + [0xFF])
  {
    assert MemoryRecallTemplate == ViscaCommands.TemplateOf(ViscaCommands.Recall);
    ViscaCommands.MemoryEncoding(ViscaCommands.Recall, h);
    if IsHexText(h) {
      var v := FromHex(h).value;
      assert ViscaCommands.MemoryFrame(ViscaCommands.Recall, v) == [0x81, 0x01, 0x04, 0x3F, 0x02] + v + [0xFF];
    }
  }

  lemma HexByteDecodes(b: byte)
    ensures FromHex(HexByte(b)) == Ok([b])
  {
    assert ToHex([b]) == HexByte(b) + ToHex([]);
    FromHexToHex([b]);
  }

  /** The recall frame change_preset evidently means to build, with the digits
      from `format(preset_num, '02x')`. */
  function RecallFrame(presetNum: int): (r: Result<seq<byte>, PyError>)
    requires 0 <= presetNum <= 127
    ensures r == Ok([0x81, 0x01, 0x04, 0x3F, 0x02, presetNum, 0xFF])
  {
    RecallOfHexText(HexByte(presetNum));
    HexByteDecodes(presetNum);
    assert [0x81, 0x01, 0x04, 0x3F, 0x02] + [presetNum] + [0xFF] == [0x81, 0x01, 0x04, 0x3F, 0x02, presetNum, 0xFF];
    FromHex(ViscaCommands.Format(MemoryRecallTemplate, HexByte(presetNum)))
  }

  /** The corrected frame agrees with the code where the code's digits are
      right, and differs from it on every other preset. */
  lemma RecallFrameMatchesCodeOnlyOnEscapes(n: int)
    requires 0 <= n <= 127
    ensures RecallData(n) == RecallFrame(n) <==> HasHexEscape(n)
  {
    RecallDataAsWritten(n);
  }

  // ---------------------------------------------------------------------------
  // Waiting for the completion frame

  /** How a Python call ends: a return value or an exception. */
  datatype Outcome = Returned(value: bool) | Raised(error: PyError)

  /** A received chunk counts only when it is exactly one of the two frames:
      `frame in total_data` tests list membership, not containment. */
  predicate IsCompletion(chunk: seq<byte>) {
    chunk == CompletionQ || chunk == CompletionR
  }

  /** The receive loop over the chunks recv returns, in order: True with the
      chunks after the first completion frame left unread, or, when no chunk
      is a completion frame, the timeout of the recv that finds nothing more. */
  function AwaitCompletion(chunks: seq<seq<byte>>): (r: (Outcome, seq<seq<byte>>))
    ensures r.0 == Returned(true) <==> exists i :: 0 <= i < |chunks| && IsCompletion(chunks[i])
    ensures r.0 != Returned(true) ==> r == (Raised(Timeout), [])
    ensures r.0 == Returned(true) ==>
      exists k :: 0 <= k < |chunks| && IsCompletion(chunks[k]) && r.1 == chunks[k + 1..] &&
        forall j :: 0 <= j < k ==> !IsCompletion(chunks[j])
  {
    if chunks == [] then (Raised(Timeout), [])
    else if IsCompletion(chunks[0]) then (Returned(true), chunks[1..])
    else
      var r := AwaitCompletion(chunks[1..]);
      assert forall i :: 1 <= i < |chunks| ==> chunks[i] == chunks[1..][i - 1];
      r
  }

  /** The first completion frame at index k ends the loop there. */
  lemma {:induction false} AwaitCompletionAt(chunks: seq<seq<byte>>, k: nat)
    requires k < |chunks| && IsCompletion(chunks[k])
    requires forall j :: 0 <= j < k ==> !IsCompletion(chunks[j])
    ensures AwaitCompletion(chunks) == (Returned(true), chunks[k + 1..])
  {
    if k > 0 {
      AwaitCompletionAt(chunks[1..], k - 1);
      assert chunks[1..][k..] == chunks[k + 1..];
    }
  }

  /** The usual VISCA reply, acknowledgement 90 41 FF then completion 90 51 FF,
      delivered by one recv is never recognised. */
  lemma AckAndCompletionInOneChunkTimesOut()
    ensures AwaitCompletion([[0x90, 0x41, 0xFF, 0x90, 0x51, 0xFF]]) == (Raised(Timeout), [])
  {
    assert !IsCompletion([0x90, 0x41, 0xFF, 0x90, 0x51, 0xFF]);
  }

  /** A completion frame left unread by an earlier call answers the next one,
      whatever the camera replies to it. */
  lemma StaleCompletionAnswers(buffer: seq<seq<byte>>, reply: seq<seq<byte>>, i: nat)
    requires i < |buffer| && IsCompletion(buffer[i])
    ensures AwaitCompletion(buffer + reply).0 == Returned(true)
  {
    assert (buffer + reply)[i] == buffer[i];
  }

  // ---------------------------------------------------------------------------
  // PTZViscaSocket

  /** A preset change_preset accepts. */
  predicate ValidPreset(presetNum: int) {
    0 <= presetNum <= 127
  }

  /** One connection to one camera. The socket itself is an abstract
      environment: whether connect and each send succeed are parameters, and
      `incoming` holds the chunks `recv(1024)` will return, oldest first. */
  class ViscaSocket {
    const address: string
    const port: int
    var isConnected: bool
    /** `close` was called on the socket. */
    var closed: bool
    /** What the socket has accepted for sending, one entry per send. */
    var sent: seq<seq<byte>>
    var incoming: seq<seq<byte>>

    /** `__init__`: the link is connected exactly when connecting to port 5678
        succeeded; a failure is caught, not raised. */
    constructor (address: string, connectSucceeds: bool)
      ensures this.address == address && port == 5678
      ensures isConnected == connectSucceeds
      ensures !closed && sent == [] && incoming == []
    {
      this.address := address;
      port := 5678;
      isConnected := connectSucceeds;
      closed := false;
      sent := [];
      incoming := [];
    }

    /** `is_my_socket`. */
    predicate IsMySocket(address: string) {
      address == this.address
    }

    /** `change_preset`. A send succeeds when the environment lets it and the
        socket is not closed; after it, `reply` is what the camera delivers. */
    method ChangePreset(presetNum: int, sendSucceeds: bool, reply: seq<seq<byte>>) returns (out: Outcome)
      modifies this
      ensures !ValidPreset(presetNum) ==> out == Returned(false) && unchanged(this)
      ensures ValidPreset(presetNum) && RecallData(presetNum).Err? ==>
        out == Raised(ValueError) && unchanged(this)
      ensures ValidPreset(presetNum) && RecallData(presetNum).Ok? && (!sendSucceeds || old(closed)) ==>
        && out == Returned(false) && !isConnected
        && closed == old(closed) && sent == old(sent) && incoming == old(incoming)
      ensures ValidPreset(presetNum) && RecallData(presetNum).Ok? && sendSucceeds && !old(closed) ==>
        && sent == old(sent) + [RecallData(presetNum).value]
        && isConnected == old(isConnected) && closed == old(closed)
        && (out, incoming) == AwaitCompletion(old(incoming) + reply)
    {
      if presetNum > 127 || presetNum < 0 {
        return Returned(false);
      }
      var data := RecallData(presetNum);
      if data.Err? {
        return Raised(data.error);
      }
      out := SendAndAwait(data.value, sendSucceeds, reply);
    }

    /** The part of change_preset after the data is built: the send, whose
        failure clears `is_connected`, and then the receive loop. */
    method SendAndAwait(data: seq<byte>, sendSucceeds: bool, reply: seq<seq<byte>>) returns (out: Outcome)
      modifies this
      ensures !sendSucceeds || old(closed) ==>
        && out == Returned(false) && !isConnected
        && closed == old(closed) && sent == old(sent) && incoming == old(incoming)
      ensures sendSucceeds && !old(closed) ==>
        && sent == old(sent) + [data]
        && isConnected == old(isConnected) && closed == old(closed)
        && (out, incoming) == AwaitCompletion(old(incoming) + reply)
    {
      if !sendSucceeds || closed {
        isConnected := false;
        return Returned(false);
      }
      sent := sent + [data];
      incoming := incoming + reply;
      out := ReceiveUntilCompletion();
    }

    /** The `while not flag` loop of change_preset: append each received chunk
        to `total_data` and stop once the list holds a completion frame. */
    method ReceiveUntilCompletion() returns (out: Outcome)
      modifies this`incoming
      ensures (out, incoming) == AwaitCompletion(old(incoming))
    {
      ghost var buffer := incoming;
      ghost var n := 0;
      var totalData: seq<seq<byte>> := [];
      var flag := false;
      while !flag
        invariant 0 <= n <= |buffer| && incoming == buffer[n..]
        invariant !flag ==> totalData == buffer[..n]
        invariant !flag ==> forall j :: 0 <= j < n ==> !IsCompletion(buffer[j])
        invariant flag ==> 0 < n && IsCompletion(buffer[n - 1])
        invariant flag ==> forall j :: 0 <= j < n - 1 ==> !IsCompletion(buffer[j])
        decreases |incoming|
      {
        if incoming == [] {
          // recv waits for the socket's timeout and raises
          AwaitCompletionNone(buffer);
          return Raised(Timeout);
        }
        var chunk := incoming[0];
        incoming := incoming[1..];
        n := n + 1;
        totalData := totalData + [chunk];
        if CompletionQ in totalData || CompletionR in totalData {
          totalData := [];
          flag := true;
        }
      }
      AwaitCompletionAt(buffer, n - 1);
      return Returned(true);
    }

    /** `close`: closes the socket and leaves `is_connected` as it was. */
    method Close()
      modifies this
      ensures closed
      ensures isConnected == old(isConnected) && sent == old(sent) && incoming == old(incoming)
    {
      closed := true;
    }
  }

  /** Without any completion frame the loop reads everything and times out. */
  lemma {:induction false} AwaitCompletionNone(chunks: seq<seq<byte>>)
    requires forall j :: 0 <= j < |chunks| ==> !IsCompletion(chunks[j])
    ensures AwaitCompletion(chunks) == (Raised(Timeout), [])
  {
    if chunks != [] {
      AwaitCompletionNone(chunks[1..]);
    }
  }
}
