/** Error envelopes: redacted, then cut to the byte limit; and the guard that bounds every outcome of a tool. */
module ToolErrors {
  import opened Wrappers
  import opened Utf8Text
  import opened PayloadBudget

  datatype ToolError = ToolError(code: Characters, message: Characters, recovery: Option<Characters>)

  datatype Envelope = Envelope(error: Characters, message: Characters, recovery: Option<Characters>)

  const FIXED := 25
  const RECOVERY_KEY := 14

  /** The size of `{"error":"…","message":"…","recovery":"…"}`. */
  function EnvelopeSize(e: Envelope): nat {
    FIXED + TextSize(e.error) + TextSize(e.message) + if e.recovery.Some?
      then RECOVERY_KEY + TextSize(e.recovery.value) else 0
  }

  function Sizes(code: Characters, recovery: Option<Characters>): Characters -> int {
    (text: Characters) => EnvelopeSize(Envelope(code, text, recovery))
  }

  lemma SizesMeasure(code: Characters, recovery: Option<Characters>, message: Characters)
    ensures Measures(Sizes(code, recovery), message)
  {
    var size := Sizes(code, recovery);
    forall j, k | 0 <= j <= k <= |message| ensures size(message[..j]) <= size(message[..k]) {
      TextSizeGrows(message, j, k);
    }
    forall k | 0 <= k <= |message| ensures size(message[..k]) >= Offset(message, k) {}
  }

  /** Whether the envelope with an empty message and no recovery fits. */
  predicate SmallestFits(code: Characters, maxBytes: int) {
    EnvelopeSize(Envelope(code, [], None)) <= maxBytes
  }

  /** What is left of an error: the longest message that fits, with the recovery if that leaves room for it. */
  ghost predicate Bounded(e: Envelope, code: Characters, message: Characters, recovery: Option<Characters>,
        maxBytes: int, k: nat) {
    && e.error == code && k <= |message| && e.message == message[..k] && (e.recovery == recovery || e.recovery.None?)
    && LongestFitting(message, maxBytes, Sizes(code, e.recovery), k)
    && (e.recovery != recovery ==> EnvelopeSize(Envelope(code, [], recovery)) > maxBytes)
  }

  /** `toToolError`. */
  method ToToolError(error: ToolError, redact: Characters -> Characters, maxBytes: int)
    returns (r: Envelope, ghost k: nat)
    ensures Bounded(r, error.code, redact(error.message), if error.recovery.Some?
      then Some(redact(error.recovery.value)) else None, maxBytes, k)
    ensures SmallestFits(error.code, maxBytes) ==> EnvelopeSize(r) <= maxBytes
  {
    var message := redact(error.message);
    var recovery := if error.recovery.Some? then Some(redact(error.recovery.value)) else None;
    var full := Envelope(error.code, message, recovery);
    assert message[..|message|] == message && message[..0] == [];
    if EnvelopeSize(full) <= maxBytes { return full, |message|; }
    SizesMeasure(error.code, recovery, message);
    var clamped, most := ClampJsonField(message, maxBytes, Sizes(error.code, recovery));
    var kept := Envelope(error.code, clamped, recovery);
    k := most;
    if EnvelopeSize(kept) <= maxBytes { return kept, k; }
    assert k == 0;
    SizesMeasure(error.code, None, message);
    var shortened, least := ClampJsonField(message, maxBytes, Sizes(error.code, None));
    r, k := Envelope(error.code, shortened, None), least;
  }

  datatype Block = TextBlock(bytes: nat) | OtherBlock

  /** A tool's result: text blocks and others, or one text block that holds an envelope. */
  datatype ToolResult = Content(blocks: seq<Block>) | ErrorResult(envelope: Envelope)

  function PayloadSize(blocks: seq<Block>): nat {
    if blocks == [] then 0
    else
      PayloadSize(blocks[..|blocks| - 1])
      + match blocks[|blocks| - 1] case TextBlock(bytes) => bytes case OtherBlock => 0
  }

  function ResultSize(r: ToolResult): nat {
    match r
    case Content(blocks) => PayloadSize(blocks)
    case ErrorResult(envelope) => EnvelopeSize(envelope)
  }

  /** `payloadBytes`. */
  method PayloadBytes(blocks: seq<Block>) returns (total: nat)
    ensures total == PayloadSize(blocks)
  {
    total := 0;
    for i := 0 to |blocks|
      invariant total == PayloadSize(blocks[..i])
    {
      assert blocks[..i + 1][..i] == blocks[..i];
      match blocks[i] {
        case TextBlock(bytes) => total := total + bytes;
        case OtherBlock =>
      }
    }
    assert blocks[..|blocks|] == blocks;
  }

  /** What a handler does: return blocks, or throw an error that is normalized. */
  datatype Outcome = Returned(blocks: seq<Block>) | Thrown(error: ToolError)

  /** `guard`: a result that fits is passed on, and everything else leaves as an envelope. */
  method Guard(outcome: Outcome, tooLarge: ToolError, redact: Characters -> Characters, maxBytes: int)
    returns (r: ToolResult)
    ensures outcome.Returned? && PayloadSize(outcome.blocks) <= maxBytes ==> r == Content(outcome.blocks)
    ensures !(outcome.Returned? && PayloadSize(outcome.blocks) <= maxBytes) ==>
      var error := if outcome.Thrown? then outcome.error else tooLarge;
      r.ErrorResult? && r.envelope.error == error.code
        && (SmallestFits(error.code, maxBytes) ==> ResultSize(r) <= maxBytes)
    ensures SmallestFits(tooLarge.code, maxBytes) && (outcome.Thrown? ==> SmallestFits(outcome.error.code, maxBytes))
      ==> ResultSize(r) <= maxBytes
  {
    if outcome.Thrown? {
      var envelope, _ := ToToolError(outcome.error, redact, maxBytes);
      return ErrorResult(envelope);
    }
    var size := PayloadBytes(outcome.blocks);
    if size <= maxBytes { return Content(outcome.blocks); }
    var envelope, _ := ToToolError(tooLarge, redact, maxBytes);
    r := ErrorResult(envelope);
  }
}
