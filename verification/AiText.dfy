/** Bounded text of an AI run: the input budget, and publishing replies in UTF-8 chunks. */
module AiText {
  import opened Prelude

  const MAX_ANSWER_BYTES := 64 * 1024
  const MAX_INPUT_BYTES := 1024 * 1024
  const MAX_HISTORY_BYTES := 128 * 1024
  const MAX_HISTORY_TURNS := 6
  const CHUNK_BYTES := 2 * 1024
  const FLUSH_BYTES := 1024

  // ----- UTF-8 (section 3 of RFC 3629) -----

  type Octets = seq<nat>

  function EncodeChar(c: char): Octets {
    var n := c as int;
    if n < 0x80 then [n]
    else if n < 0x800 then [0xC0 + n / 0x40, 0x80 + n % 0x40]
    else if n < 0x10000 then [0xE0 + n / 0x1000, 0x80 + n / 0x40 % 0x40, 0x80 + n % 0x40]
    else [0xF0 + n / 0x40000, 0x80 + n / 0x1000 % 0x40, 0x80 + n / 0x40 % 0x40, 0x80 + n % 0x40]
  }

  function Encode(s: string): Octets {
    if s == "" then [] else Encode(s[..|s| - 1]) + EncodeChar(s[|s| - 1])
  }

  predicate IsContinuation(b: nat) {
    0x80 <= b < 0xC0
  }

  /** `is_char_boundary` */
  predicate IsBoundary(bytes: Octets, i: nat) {
    i == 0 || i == |bytes| || (i < |bytes| && !IsContinuation(bytes[i]))
  }

  lemma {:induction false} CharShape(c: char)
    ensures var e := EncodeChar(c);
      1 <= |e| <= 4 && !IsContinuation(e[0]) && forall i :: 1 <= i < |e| ==> IsContinuation(e[i])
  {
  }

  lemma {:induction false} EncodeAppend(a: string, b: string)
    ensures Encode(a + b) == Encode(a) + Encode(b)
  {
    hide EncodeChar;
    if b == "" {
      assert a + b == a;
    } else {
      EncodeAppend(a, b[..|b| - 1]);
      assert (a + b)[..|a + b| - 1] == a + b[..|b| - 1];
    }
  }

  lemma {:induction false} EncodeLength(s: string)
    ensures |Encode(s)| == Utf8Length(s)
  {
    if s != "" {
      EncodeLength(s[..|s| - 1]);
      assert s == s[..|s| - 1] + [s[|s| - 1]];
      Utf8Append(s[..|s| - 1], [s[|s| - 1]]);
      assert [s[|s| - 1]][1..] == "";
    }
  }

  /** A boundary of the bytes is a boundary of the characters. */
  lemma {:induction false} BoundarySplits(s: string, i: nat) returns (k: nat)
    requires i <= |Encode(s)| && IsBoundary(Encode(s), i)
    ensures k <= |s| && Encode(s)[..i] == Encode(s[..k]) && Encode(s)[i..] == Encode(s[k..])
  {
    hide EncodeChar;
    if i == |Encode(s)| {
      k := |s|;
      assert s[..k] == s && s[k..] == "";
    } else {
      var most, last := s[..|s| - 1], s[|s| - 1];
      CharShape(last);
      var e := Encode(most);
      assert Encode(s) == e + EncodeChar(last);
      assert i <= |e|;
      assert i < |e| ==> Encode(s)[i] == e[i];
      k := BoundarySplits(most, i);
      assert most[..k] == s[..k];
      EncodeAppend(s[..k], s[k..]);
      assert s == s[..k] + s[k..];
    }
  }

  /** Among four neighbouring offsets one is a boundary. */
  lemma {:induction false} BoundaryNear(s: string, i: nat)
    requires 3 <= i <= |Encode(s)|
    ensures IsBoundary(Encode(s), i) || IsBoundary(Encode(s), i - 1) || IsBoundary(Encode(s), i - 2) || IsBoundary(Encode(s), i - 3)
  {
    hide EncodeChar, IsContinuation;
    if i < |Encode(s)| {
      var most, last := s[..|s| - 1], s[|s| - 1];
      CharShape(last);
      var e, c := Encode(most), EncodeChar(last);
      var bytes := Encode(s);
      assert bytes == e + c;
      if i >= |e| {
        assert bytes[|e|] == c[0];
      } else {
        BoundaryNear(most, i);
        assert bytes[i] == e[i] && bytes[i - 1] == e[i - 1] && bytes[i - 2] == e[i - 2] && bytes[i - 3] == e[i - 3];
      }
    }
  }

  // ----- Publishing -----

  lemma {:induction false} ConcatSnoc(chunks: seq<Octets>, c: Octets)
    ensures Concat(chunks + [c]) == Concat(chunks) + c
  {
    assert (chunks + [c])[..|chunks|] == chunks;
  }

  /** An event the server takes: not empty, not too large, and whole characters. */
  ghost predicate FitChunk(c: Octets) {
    0 < |c| <= CHUNK_BYTES && exists s :: c == Encode(s)
  }

  /** The run's event log on the server; the attempts in `failing` fail, whatever happens before or after. */
  class EventLog {
    var chunks: seq<Octets>
    var attempts: nat
    const failing: set<nat>

    constructor (failing: set<nat>)
      ensures chunks == [] && attempts == 0 && this.failing == failing
    {
      chunks, attempts, this.failing := [], 0, failing;
    }

    method Append(c: Octets) returns (ok: bool)
      modifies this
      ensures chunks == if ok then old(chunks) + [c] else old(chunks)
      ensures attempts == old(attempts) + 1 && (ok <==> old(attempts) !in failing)
    {
      ok := attempts !in failing;
      attempts := attempts + 1;
      if ok {
        chunks := chunks + [c];
      }
    }
  }

  ghost predicate AllFit(chunks: seq<Octets>) {
    forall c :: c in chunks ==> FitChunk(c)
  }

  /** `append_text` */
  method AppendText(log: EventLog, text: string) returns (ok: bool)
    modifies log
    ensures AllFit(old(log.chunks)) ==> AllFit(log.chunks)
    ensures ok ==> Concat(log.chunks) == Concat(old(log.chunks)) + Encode(text)
    ensures Concat(old(log.chunks)) <= Concat(log.chunks) <= Concat(old(log.chunks)) + Encode(text)
    ensures log.failing == {} ==> ok
  {
    hide Encode, Concat, IsContinuation;
    var bytes := Encode(text);
    var start := 0;
    ghost var before := Concat(log.chunks);
    while start < |bytes|
      invariant start <= |bytes| && IsBoundary(bytes, start)
      invariant Concat(log.chunks) == before + bytes[..start]
      invariant AllFit(old(log.chunks)) ==> AllFit(log.chunks)
      decreases |bytes| - start
    {
      var end := if start + CHUNK_BYTES < |bytes| then start + CHUNK_BYTES else |bytes|;
      if end < |bytes| {
        BoundaryNear(text, end);
      }
      ghost var limit := end;
      while !IsBoundary(bytes, end)
        invariant start < end <= limit && (limit == |bytes| ==> end == limit)
        invariant forall j :: end < j <= limit ==> !IsBoundary(bytes, j)
        decreases end
      {
        assert end > limit - 3;
        end := end - 1;
      }
      SliceEncodes(text, start, end);
      ghost var chunks := log.chunks;
      var appended := log.Append(bytes[start..end]);
      if !appended {
        return false;
      }
      ConcatSnoc(chunks, bytes[start..end]);
      assert bytes[..start] + bytes[start..end] == bytes[..end];
      start := end;
    }
    assert bytes[..start] == bytes;
    ok := true;
  }

  /** The bytes between two boundaries are the encoding of some characters. */
  lemma {:induction false} SliceEncodes(s: string, i: nat, j: nat)
    requires i < j <= |Encode(s)| && IsBoundary(Encode(s), i) && IsBoundary(Encode(s), j)
    ensures exists t :: Encode(s)[i..j] == Encode(t)
  {
    hide Encode, IsContinuation;
    var k := BoundarySplits(s, j);
    var front := s[..k];
    assert Encode(front) == Encode(s)[..j];
    assert i < |Encode(front)| && Encode(front)[i] == Encode(s)[i];
    var l := BoundarySplits(front, i);
    assert Encode(s)[i..j] == Encode(front)[i..];
    assert Encode(s)[i..j] == Encode(front[l..]);
  }

  /** `TextPublisher` with its `AnswerBudget`. */
  class TextPublisher {
    var pending: string
    var streamed: nat
    var completed: nat
    /** Everything the deltas were accepted for, and whether an append has failed. */
    ghost var accepted: string
    ghost var failed: bool

    constructor ()
      ensures pending == "" && streamed == 0 && completed == 0 && accepted == "" && !failed
    {
      pending, streamed, completed, accepted, failed := "", 0, 0, "", false;
    }

    /** What is on the server and what is still pending are together what was accepted. */
    ghost predicate Valid(log: EventLog)
      reads this, log
    {
      && AllFit(log.chunks)
      && (!failed ==> Concat(log.chunks) + Encode(pending) == Encode(accepted))
      && streamed == |Encode(accepted)| <= MAX_ANSWER_BYTES
      && completed <= MAX_ANSWER_BYTES
    }

    /** `delta`: an oversized reply is refused before anything changes. */
    method Delta(log: EventLog, text: string) returns (ok: bool)
      requires Valid(log)
      modifies this, log
      ensures Valid(log) && completed == old(completed)
      ensures accepted == if old(streamed) + |Encode(text)| <= MAX_ANSWER_BYTES then old(accepted) + text else old(accepted)
      ensures old(streamed) + |Encode(text)| > MAX_ANSWER_BYTES ==> !ok && pending == old(pending) && log.chunks == old(log.chunks)
      ensures failed ==> old(failed) || (!ok && Concat(log.chunks) <= Encode(accepted))
      ensures ok && text != "" ==> |Encode(pending)| < FLUSH_BYTES
      ensures
        old(streamed) + |Encode(text)| <= MAX_ANSWER_BYTES && |Encode(old(pending) + text)| < FLUSH_BYTES ==>
          ok && pending == old(pending) + text && log.chunks == old(log.chunks)
      ensures log.failing == {} && !old(failed) ==> !failed && (ok <==> old(streamed) + |Encode(text)| <= MAX_ANSWER_BYTES)
    {
      hide Encode, Concat, AllFit;
      if text == "" {
        NothingEncoded();
        assert old(accepted) + text == old(accepted);
        return true;
      }
      var size := streamed + |Encode(text)|;
      if size > MAX_ANSWER_BYTES {
        return false;
      }
      streamed := size;
      EncodeAppend(accepted, text);
      EncodeAppend(pending, text);
      pending := pending + text;
      accepted := accepted + text;
      ok := true;
      if |Encode(pending)| >= FLUSH_BYTES {
        ok := Flush(log);
      }
    }

    /** `message`: completed messages have a budget of their own and leave the streamed text alone. */
    method Message(log: EventLog, text: string) returns (ok: bool)
      requires Valid(log)
      modifies this`completed
      ensures Valid(log)
      ensures ok <==> old(completed) + |Encode(text)| <= MAX_ANSWER_BYTES
      ensures completed == if ok then old(completed) + |Encode(text)| else old(completed)
    {
      hide Encode, Concat, AllFit;
      var size := completed + |Encode(text)|;
      ok := size <= MAX_ANSWER_BYTES;
      if ok {
        completed := size;
      }
    }

    method Flush(log: EventLog) returns (ok: bool)
      requires Valid(log)
      modifies this, log
      ensures Valid(log) && accepted == old(accepted) && streamed == old(streamed) && completed == old(completed)
      ensures pending == "" && failed == (old(failed) || !ok) && |Encode(pending)| == 0
      ensures !old(failed) ==> Concat(log.chunks) <= Encode(accepted) && (ok ==> Concat(log.chunks) == Encode(accepted))
      ensures log.failing == {} ==> ok
    {
      hide Encode, Concat, AllFit;
      NothingEncoded();
      var text := pending;
      pending := "";
      ok := AppendText(log, text);
      failed := failed || !ok;
    }
  }

  lemma {:induction false} NothingEncoded()
    ensures Encode("") == []
  {
  }

  // ----- The input -----

  type Turn = (string, string)

  function TurnSize(t: Turn): nat {
    Utf8Length(t.0) + Utf8Length(t.1) + 24
  }

  function TurnsSize(turns: seq<Turn>): nat {
    if turns == [] then 0 else TurnSize(turns[0]) + TurnsSize(turns[1..])
  }

  function TurnText(t: Turn): string {
    "User: " + t.0 + "\nAssistant: " + t.1 + "\n\n"
  }

  function TurnsText(turns: seq<Turn>): string {
    if turns == [] then "" else TurnText(turns[0]) + TurnsText(turns[1..])
  }

  function OmissionNote(): string {
    "Earlier chat turns were omitted" + " to fit Sift's context limits.\n\n"
  }

  function Omission(omitted: bool): string {
    if omitted then OmissionNote() else ""
  }

  function Current(context: string, prompt: string): string {
    "Current Sift context (fixed for this turn):\n" + context + "\n\nUser: " + prompt
  }

  function CurrentSize(context: string, prompt: string): nat {
    Utf8Length(context) + Utf8Length(prompt) + 128
  }

  function HistoryBudget(context: string, prompt: string): nat
    requires CurrentSize(context, prompt) <= MAX_INPUT_BYTES
  {
    if MAX_INPUT_BYTES - CurrentSize(context, prompt) < MAX_HISTORY_BYTES then MAX_INPUT_BYTES - CurrentSize(context, prompt) else MAX_HISTORY_BYTES
  }

  ghost predicate Fitting(history: seq<Turn>, k: nat, budget: nat) {
    k <= |history| && |history| - k <= MAX_HISTORY_TURNS && TurnsSize(history[k..]) <= budget
  }

  datatype Input = Input(text: string, omittedTurns: nat)

  /** The retained turns are the longest fitting suffix of the history. */
  ghost predicate IsInput(context: string, prompt: string, history: seq<Turn>, earlierOmitted: bool, r: Input) {
    && CurrentSize(context, prompt) <= MAX_INPUT_BYTES
    && Fitting(history, r.omittedTurns, HistoryBudget(context, prompt))
    && (forall k :: Fitting(history, k, HistoryBudget(context, prompt)) ==> r.omittedTurns <= k)
    && r.text == Omission(r.omittedTurns > 0 || earlierOmitted) + TurnsText(history[r.omittedTurns..]) + Current(context, prompt)
  }

  lemma {:induction false} ShorterFits(history: seq<Turn>, j: nat, k: nat)
    requires j <= k <= |history|
    ensures TurnsSize(history[k..]) <= TurnsSize(history[j..])
    decreases k - j
  {
    if j < k {
      assert history[j..][1..] == history[j + 1..];
      ShorterFits(history, j + 1, k);
    }
  }

  method RetainTurns(history: seq<Turn>, budget: nat) returns (k: nat)
    ensures Fitting(history, k, budget) && forall j :: Fitting(history, j, budget) ==> k <= j
  {
    hide TurnSize;
    k := |history|;
    var size := 0;
    while k > 0 && |history| - k < MAX_HISTORY_TURNS
      invariant Fitting(history, k, budget) && size == TurnsSize(history[k..])
    {
      assert history[k - 1..][0] == history[k - 1] && history[k - 1..][1..] == history[k..];
      if TurnSize(history[k - 1]) > budget - size {
        forall j: nat | Fitting(history, j, budget) ensures k <= j {
          if j < k {
            ShorterFits(history, j, k - 1);
          }
        }
        return;
      }
      size := size + TurnSize(history[k - 1]);
      k := k - 1;
    }
  }

  /** The loop that writes the retained turns, oldest first. */
  method WriteTurns(text0: string, turns: seq<Turn>) returns (text: string)
    ensures text == text0 + TurnsText(turns)
  {
    text := text0;
    for i := 0 to |turns|
      invariant text + TurnsText(turns[i..]) == text0 + TurnsText(turns)
    {
      assert turns[i..][0] == turns[i] && turns[i..][1..] == turns[i + 1..];
      ghost var before := text;
      text := text + "User: " + turns[i].0 + "\nAssistant: " + turns[i].1 + "\n\n";
      assert text == before + TurnText(turns[i]);
      assert text + TurnsText(turns[i + 1..]) == before + (TurnText(turns[i]) + TurnsText(turns[i + 1..]));
    }
    assert turns[|turns|..] == [];
  }

  /** `input`: refused exactly when context and prompt alone are too large. */
  method BuildInput(context: string, prompt: string, history: seq<Turn>, earlierOmitted: bool) returns (r: Option<Input>)
    ensures r.None? <==> CurrentSize(context, prompt) > MAX_INPUT_BYTES
    ensures r.Some? ==> IsInput(context, prompt, history, earlierOmitted, r.value)
  {
    hide TurnsText, Utf8Length, Fitting;
    var currentSize := Utf8Length(context) + Utf8Length(prompt) + 128;
    if currentSize > MAX_INPUT_BYTES {
      return None;
    }
    var left := MAX_INPUT_BYTES - currentSize;
    var omitted := RetainTurns(history, if left < MAX_HISTORY_BYTES then left else MAX_HISTORY_BYTES);
    assert omitted <= |history| by { FittingInside(history, omitted, HistoryBudget(context, prompt)); }
    var text := "";
    if omitted > 0 || earlierOmitted {
      text := text + OmissionNote();
    }
    assert text == Omission(omitted > 0 || earlierOmitted);
    ghost var head := text;
    text := WriteTurns(text, history[omitted..]);
    ghost var body := text;
    text := text + "Current Sift context (fixed for this turn):\n";
    text := text + context;
    text := text + "\n\nUser: ";
    text := text + prompt;
    assert text == body + Current(context, prompt);
    r := Some(Input(text, omitted));
  }

  lemma {:induction false} FittingInside(history: seq<Turn>, k: nat, budget: nat)
    requires Fitting(history, k, budget)
    ensures k <= |history|
  {
  }

  lemma {:induction false} AsciiLength(s: string)
    requires forall i :: 0 <= i < |s| ==> s[i] < '\U{80}'
    ensures Utf8Length(s) == |s|
  {
    if s != "" {
      AsciiLength(s[1..]);
    }
  }

  lemma {:induction false} ShortLabels()
    ensures Utf8Length("User: ") == 6 && Utf8Length("\nAssistant: ") == 12 && Utf8Length("\n\n") == 2 && Utf8Length("\n\nUser: ") == 8
  {
    hide Utf8Length;
    AsciiLength("User: ");
    AsciiLength("\nAssistant: ");
    AsciiLength("\n\n");
    AsciiLength("\n\nUser: ");
  }

  lemma {:induction false} ContextLabel()
    ensures Utf8Length("Current Sift context (fixed for this turn):\n") == 44
  {
    hide Utf8Length;
    AsciiLength("Current Sift context (fixed for this turn):\n");
  }

  lemma {:induction false} OmissionLabel(omitted: bool)
    ensures Utf8Length(Omission(omitted)) <= 63
  {
    hide Utf8Length;
    AsciiLength("Earlier chat turns were omitted");
    AsciiLength(" to fit Sift's context limits.\n\n");
    Utf8Append("Earlier chat turns were omitted", " to fit Sift's context limits.\n\n");
    AsciiLength("");
  }

  lemma {:induction false} Labels()
    ensures Utf8Length("User: ") == 6 && Utf8Length("\nAssistant: ") == 12 && Utf8Length("\n\n") == 2 && Utf8Length("\n\nUser: ") == 8
    ensures Utf8Length("Current Sift context (fixed for this turn):\n") == 44
    ensures forall omitted: bool :: Utf8Length(Omission(omitted)) <= 63
    ensures Utf8Length("") == 0
  {
    hide Utf8Length, Omission;
    ShortLabels();
    ContextLabel();
    forall omitted: bool ensures Utf8Length(Omission(omitted)) <= 63 { OmissionLabel(omitted); }
    AsciiLength("");
  }

  lemma {:induction false} TurnsTextFits(turns: seq<Turn>)
    ensures Utf8Length(TurnsText(turns)) <= TurnsSize(turns)
  {
    hide Utf8Length;
    Labels();
    if turns != [] {
      var t := turns[0];
      TurnsTextFits(turns[1..]);
      Utf8Append("User: ", t.0);
      Utf8Append("User: " + t.0, "\nAssistant: ");
      Utf8Append("User: " + t.0 + "\nAssistant: ", t.1);
      Utf8Append("User: " + t.0 + "\nAssistant: " + t.1, "\n\n");
      Utf8Append(TurnText(t), TurnsText(turns[1..]));
    }
  }

  /** The input never exceeds its limit, and ends with context and prompt as they are. */
  lemma {:induction false} InputFits(context: string, prompt: string, history: seq<Turn>, earlierOmitted: bool, r: Input)
    requires IsInput(context, prompt, history, earlierOmitted, r)
    ensures Utf8Length(r.text) <= MAX_INPUT_BYTES
    ensures |r.text| >= |Current(context, prompt)| && r.text[|r.text| - |Current(context, prompt)|..] == Current(context, prompt)
  {
    hide Utf8Length, TurnsText, TurnsSize;
    Labels();
    var head, turns, tail := Omission(r.omittedTurns > 0 || earlierOmitted), TurnsText(history[r.omittedTurns..]), Current(context, prompt);
    TurnsTextFits(history[r.omittedTurns..]);
    Utf8Append("Current Sift context (fixed for this turn):\n", context);
    Utf8Append("Current Sift context (fixed for this turn):\n" + context, "\n\nUser: ");
    Utf8Append("Current Sift context (fixed for this turn):\n" + context + "\n\nUser: ", prompt);
    Utf8Append(head, turns);
    Utf8Append(head + turns, tail);
    assert r.text == head + turns + tail;
  }
}
