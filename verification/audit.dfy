/**
 * The audit engine of webtty/webtty.go (`audit`, `filterASCII`): a small
 * machine over the in-progress command `buffer` and the `waitForAutocomplete`
 * flag. It reconstructs typed commands from keystroke chunks and writes one
 * Info record per completed command. Here the engine is a function from state
 * and chunk to state. The WebTTY class runs it in place, as the source does,
 * and is proved to agree with it.
 */
module Audit {
  import opened Common

  const Backspace: byte := 8
  const Tab: byte := 9
  const LineFeed: byte := 10
  const CarriageReturn: byte := 13
  const Space: byte := 32
  const Hash: byte := 35

  /** The direction of the slave pump: output echoed by the terminal. */
  const Send: string := "send"
  /**
   * The direction of the master pump: keystrokes. The source spells it
   * "recive" both where it calls `audit` and where `audit` tests it, so the
   * two agree. `filterASCII` tests only for "send".
   */
  const Recive: string := "recive"

  /** The shell prompt that records have removed: "sh-4.3#". */
  const Prompt: seq<byte> := [115, 104, 45, 52, 46, 51, 35]
  /** The text in front of each record: "msg=". */
  const MsgPrefix: seq<byte> := [109, 115, 103, 61]

  /** The audit part of a session. `records` are the Info-level log messages written so far. */
  datatype AuditState = AuditState(buffer: seq<byte>, waitForAutocomplete: bool, records: seq<seq<byte>>)

  /**
   * `filterASCII`: false for the chunks that are not audited at all. These are
   * a prompt echo (CR LF ... "# "), a partial prompt ("sh" ... "# "), a bare
   * CR LF, and a lone CR in the send direction.
   */
  predicate FilterASCII(action: string, msg: seq<byte>) {
    if |msg| > 1 && msg[0] == CarriageReturn && msg[1] == LineFeed && msg[|msg| - 1] == Space && msg[|msg| - 2] == Hash then false
    else if |msg| > 1 && msg[0] == 115 && msg[1] == 104 && msg[|msg| - 1] == Space && msg[|msg| - 2] == Hash then false
    else if |msg| == 2 && msg[0] == CarriageReturn && msg[1] == LineFeed then false
    else if action == Send && |msg| == 1 && msg[0] == CarriageReturn then false
    else true
  }

  /** The four kinds of chunk the filter drops, and the direction the lone-CR rule depends on. */
  lemma FilterDrops(action: string, middle: seq<byte>)
    ensures !FilterASCII(action, [CarriageReturn, LineFeed] + middle + [Hash, Space])
    ensures !FilterASCII(action, [115, 104] + middle + [Hash, Space])
    ensures !FilterASCII(action, [CarriageReturn, LineFeed])
    ensures !FilterASCII(Send, [CarriageReturn]) && FilterASCII(Recive, [CarriageReturn])
    ensures FilterASCII(action, [])
  {
  }

  /**
   * The filter rejects exactly the four kinds of chunk: a prompt echo
   * (CR LF ... "# "), a partial prompt ("sh" ... "# "), a bare CR LF, and a
   * lone CR in the send direction. Every other chunk is audited.
   */
  lemma FilterExactly(action: string, msg: seq<byte>)
    ensures !FilterASCII(action, msg) <==>
      || (|msg| >= 4 && (msg[..2] == [CarriageReturn, LineFeed] || msg[..2] == [115, 104]) && msg[|msg| - 2..] == [Hash, Space])
      || msg == [CarriageReturn, LineFeed]
      || (action == Send && msg == [CarriageReturn])
  {
    if |msg| >= 2 {
      assert msg[..2] == [msg[0], msg[1]];
      if |msg| >= 4 {
        assert msg[|msg| - 2..] == [msg[|msg| - 2], msg[|msg| - 1]];
      }
    }
  }

  /** True when `pat` occurs in `s` at index `i`. */
  predicate OccursAt(s: seq<byte>, pat: seq<byte>, i: int) {
    0 <= i && i + |pat| <= |s| && s[i..i + |pat|] == pat
  }

  /**
   * `strings.Replace(s, pat, "", -1)` for a non-empty pattern: scan left to
   * right and drop every occurrence that does not overlap one already dropped.
   */
  function RemoveAll(s: seq<byte>, pat: seq<byte>): (r: seq<byte>)
    requires |pat| > 0
    ensures |r| <= |s|
    decreases |s|
  {
    if |s| < |pat| then s
    else if s[..|pat|] == pat then RemoveAll(s[|pat|..], pat)
    else [s[0]] + RemoveAll(s[1..], pat)
  }

  /** A text in which the pattern does not occur is left as it is. */
  lemma {:induction false} RemoveAllAbsent(s: seq<byte>, pat: seq<byte>)
    requires |pat| > 0
    requires forall i | 0 <= i <= |s| - |pat| :: !OccursAt(s, pat, i)
    ensures RemoveAll(s, pat) == s
    decreases |s|
  {
    if |s| >= |pat| {
      assert !OccursAt(s, pat, 0);
      forall i | 0 <= i <= |s[1..]| - |pat|
        ensures !OccursAt(s[1..], pat, i)
      {
        assert !OccursAt(s, pat, i + 1);
        assert s[1..][i..i + |pat|] == s[i + 1..i + 1 + |pat|];
      }
      RemoveAllAbsent(s[1..], pat);
      assert s == [s[0]] + s[1..];
    }
  }

  /** A leading pattern is dropped and the removal goes on after it. */
  lemma RemoveAllLeading(pat: seq<byte>, rest: seq<byte>)
    requires |pat| > 0
    ensures RemoveAll(pat + rest, pat) == RemoveAll(rest, pat)
  {
    assert (pat + rest)[..|pat|] == pat;
    assert (pat + rest)[|pat|..] == rest;
  }

  /**
   * Bytes in front of the first occurrence are kept as they are; that
   * occurrence is dropped, and removal goes on after it.
   */
  lemma {:induction false} RemoveAllFirst(a: seq<byte>, pat: seq<byte>, b: seq<byte>)
    requires |pat| > 0
    requires forall i | 0 <= i < |a| :: !OccursAt(a + pat + b, pat, i)
    ensures RemoveAll(a + pat + b, pat) == a + RemoveAll(b, pat)
    decreases |a|
  {
    if a == [] {
      assert a + pat + b == pat + b;
      RemoveAllLeading(pat, b);
    } else {
      var s := a + pat + b;
      assert !OccursAt(s, pat, 0);
      assert s[1..] == a[1..] + pat + b;
      NoOccurrenceAfterFirst(a, pat, b);
      RemoveAllFirst(a[1..], pat, b);
      assert RemoveAll(s, pat) == [s[0]] + RemoveAll(s[1..], pat);
      assert a == [a[0]] + a[1..];
    }
  }

  /** Dropping the first byte of the prefix keeps the prefix free of occurrences. */
  lemma NoOccurrenceAfterFirst(a: seq<byte>, pat: seq<byte>, b: seq<byte>)
    requires |a| > 0
    requires forall i | 0 <= i < |a| :: !OccursAt(a + pat + b, pat, i)
    ensures forall i | 0 <= i < |a[1..]| :: !OccursAt(a[1..] + pat + b, pat, i)
  {
    var s := a + pat + b;
    assert s[1..] == a[1..] + pat + b;
    forall i | 0 <= i < |a[1..]|
      ensures !OccursAt(a[1..] + pat + b, pat, i)
    {
      assert !OccursAt(s, pat, i + 1);
      assert s[1..][i..i + |pat|] == s[i + 1..i + 1 + |pat|];
    }
  }

  /** The number of occurrences RemoveAll drops. */
  function Removals(s: seq<byte>, pat: seq<byte>): nat
    requires |pat| > 0
    decreases |s|
  {
    if |s| < |pat| then 0
    else if s[..|pat|] == pat then 1 + Removals(s[|pat|..], pat)
    else Removals(s[1..], pat)
  }

  /** The text shrinks by exactly the pattern's length per removal. */
  lemma {:induction false} RemoveAllLength(s: seq<byte>, pat: seq<byte>)
    requires |pat| > 0
    ensures |s| == |RemoveAll(s, pat)| + Removals(s, pat) * |pat|
    decreases |s|
  {
    if |s| >= |pat| {
      if s[..|pat|] == pat {
        var rest := s[|pat|..];
        RemoveAllLength(rest, pat);
        var k := Removals(rest, pat);
        assert (k + 1) * |pat| == k * |pat| + |pat|;
      } else {
        RemoveAllLength(s[1..], pat);
      }
    }
  }

  /** The Info record for a completed command: "msg=" and the buffer without the prompt. */
  function Record(buffer: seq<byte>): seq<byte> {
    MsgPrefix + RemoveAll(buffer, Prompt)
  }

  /**
   * The receive-direction loop from index `i` on, as the loop in `audit` runs
   * it. TAB sets the flag. BS reassigns the buffer to itself, which changes
   * nothing. A CR that is the last byte, with a non-empty buffer, writes a
   * record and empties the buffer. Otherwise a CR at index 0 ends the chunk.
   * Any other CR does nothing, and every other byte is appended.
   */
  function ReceiveFrom(st: AuditState, msg: seq<byte>, i: nat): AuditState
    decreases |msg| - i
  {
    if i >= |msg| then st
    else
      var s := msg[i];
      if s == Tab then ReceiveFrom(st.(waitForAutocomplete := true), msg, i + 1)
      else if s == Backspace then ReceiveFrom(st.(buffer := st.buffer[..|st.buffer|]), msg, i + 1)
      else if s == CarriageReturn then
        if |st.buffer| > 0 && i == |msg| - 1 then
          ReceiveFrom(AuditState([], st.waitForAutocomplete, st.records + [Record(st.buffer)]), msg, i + 1)
        else if i == 0 then st
        else ReceiveFrom(st, msg, i + 1)
      else ReceiveFrom(st.(buffer := st.buffer + [s]), msg, i + 1)
  }

  /** `audit(action, msg)`: the state after one chunk. */
  function AuditChunk(st: AuditState, action: string, msg: seq<byte>): AuditState {
    if !FilterASCII(action, msg) then st
    else if action == Send then
      if st.waitForAutocomplete then st.(waitForAutocomplete := false, buffer := st.buffer + msg) else st
    else if action == Recive then
      if |msg| > 0 then ReceiveFrom(st, msg, 0) else st
    else st
  }

  /** The bytes of a keystroke chunk that go into the buffer: all but TAB, BS and CR. */
  function Typed(msg: seq<byte>): (t: seq<byte>)
    ensures |t| <= |msg|
  {
    if msg == [] then []
    else if msg[0] == Tab || msg[0] == Backspace || msg[0] == CarriageReturn then Typed(msg[1..])
    else [msg[0]] + Typed(msg[1..])
  }

  /** True when TAB occurs among the bytes of `msg` from index `i` on. */
  predicate HasTab(msg: seq<byte>, i: nat) {
    exists j | i <= j < |msg| :: msg[j] == Tab
  }

  // ---------------------------------------------------------------------
  // Properties of the engine
  // ---------------------------------------------------------------------

  /** A chunk the filter drops leaves the buffer, the flag and the records as they were. */
  lemma DroppedChunkChangesNothing(st: AuditState, action: string, msg: seq<byte>)
    requires !FilterASCII(action, msg)
    ensures AuditChunk(st, action, msg) == st
  {
  }

  /** An action other than "send" and "recive" changes nothing. */
  lemma OtherActionChangesNothing(st: AuditState, action: string, msg: seq<byte>)
    requires action != Send && action != Recive
    ensures AuditChunk(st, action, msg) == st
  {
  }

  /**
   * Send direction: an audited chunk that follows a TAB clears the flag and
   * goes whole into the buffer. Otherwise the chunk changes nothing.
   */
  lemma SendAppendsAfterTab(st: AuditState, msg: seq<byte>)
    requires FilterASCII(Send, msg)
    ensures st.waitForAutocomplete ==>
      AuditChunk(st, Send, msg) == AuditState(st.buffer + msg, false, st.records)
    ensures !st.waitForAutocomplete ==> AuditChunk(st, Send, msg) == st
  {
  }

  /**
   * Receive direction, a run of keystrokes without CR: the bytes other than
   * TAB and BS are appended in order. A TAB sets the flag and nothing is recorded.
   */
  lemma {:induction false} ReceiveWithoutCR(st: AuditState, msg: seq<byte>, i: nat)
    requires i <= |msg|
    requires forall j | i <= j < |msg| :: msg[j] != CarriageReturn
    ensures ReceiveFrom(st, msg, i) ==
      AuditState(st.buffer + Typed(msg[i..]), st.waitForAutocomplete || HasTab(msg, i), st.records)
    decreases |msg| - i
  {
    if i == |msg| {
      assert msg[i..] == [];
    } else {
      var s := msg[i];
      assert msg[i..] == [s] + msg[i + 1..];
      assert msg[i..][1..] == msg[i + 1..];
      assert HasTab(msg, i) <==> s == Tab || HasTab(msg, i + 1);
      if s == Tab {
        ReceiveWithoutCR(st.(waitForAutocomplete := true), msg, i + 1);
      } else if s == Backspace {
        assert st.buffer[..|st.buffer|] == st.buffer;
        ReceiveWithoutCR(st, msg, i + 1);
      } else {
        ReceiveWithoutCR(st.(buffer := st.buffer + [s]), msg, i + 1);
        assert st.buffer + [s] + Typed(msg[i + 1..]) == st.buffer + Typed(msg[i..]);
      }
    }
  }

  /**
   * A command line: keystrokes without CR, then CR as the last byte. If the
   * buffer then holds anything, exactly one record is written, the buffer
   * without the prompt, and the buffer is emptied. Otherwise nothing is
   * recorded.
   */
  lemma CommandLine(st: AuditState, line: seq<byte>)
    requires forall j | 0 <= j < |line| :: line[j] != CarriageReturn
    ensures var command := st.buffer + Typed(line);
      AuditChunk(st, Recive, line + [CarriageReturn]) ==
        AuditState([], st.waitForAutocomplete || HasTab(line, 0),
                    st.records + (if command != [] then [Record(command)] else []))
  {
    var msg := line + [CarriageReturn];
    assert FilterASCII(Recive, msg) by {
      assert msg[|msg| - 1] == CarriageReturn;
      assert |line| > 0 ==> msg[0] == line[0];
    }
    ReceiveChunk(st, msg);
    if line == [] {
      assert msg == [CarriageReturn];
      assert Typed(line) == [] && !HasTab(line, 0);
      assert st.buffer + Typed(line) == st.buffer;
    } else {
      assert msg[0] == line[0];
      assert msg[..|msg| - 1] == line;
      TabBeforeLastCR(line);
    }
  }

  /** A CR after the line adds no TAB. */
  lemma TabBeforeLastCR(line: seq<byte>)
    ensures HasTab(line + [CarriageReturn], 0) <==> HasTab(line, 0)
  {
    var msg := line + [CarriageReturn];
    if HasTab(msg, 0) {
      var j :| 0 <= j < |msg| && msg[j] == Tab;
      assert j < |line| && line[j] == Tab;
    }
    if HasTab(line, 0) {
      var j :| 0 <= j < |line| && line[j] == Tab;
      assert msg[j] == Tab;
    }
  }

  /**
   * What the receive loop leaves from index `i` on, in closed form. When the
   * chunk ends in CR, the bytes kept before it complete the command: a
   * non-empty command is recorded and the buffer is emptied. Otherwise the
   * kept bytes are appended. A TAB sets the flag.
   */
  function Resume(st: AuditState, msg: seq<byte>, i: nat): AuditState
    requires i <= |msg|
  {
    if i < |msg| && msg[|msg| - 1] == CarriageReturn then
      var command := st.buffer + Typed(msg[i..|msg| - 1]);
      AuditState([], st.waitForAutocomplete || HasTab(msg, i),
                 st.records + (if command != [] then [Record(command)] else []))
    else
      AuditState(st.buffer + Typed(msg[i..]), st.waitForAutocomplete || HasTab(msg, i), st.records)
  }

  /** One byte of the receive loop that neither ends the chunk nor completes a command. */
  function Next(st: AuditState, b: byte): AuditState {
    if b == Tab then st.(waitForAutocomplete := true)
    else if b == Backspace then st.(buffer := st.buffer[..|st.buffer|])
    else if b == CarriageReturn then st
    else st.(buffer := st.buffer + [b])
  }

  /** The closed form takes one byte at a time, except a CR that is the last byte. */
  lemma ResumeStep(st: AuditState, msg: seq<byte>, i: nat)
    requires i < |msg| && !(msg[i] == CarriageReturn && i == |msg| - 1)
    ensures Resume(st, msg, i) == Resume(Next(st, msg[i]), msg, i + 1)
  {
    var s := msg[i];
    var next := Next(st, s);
    assert HasTab(msg, i) <==> s == Tab || HasTab(msg, i + 1);
    var end := if msg[|msg| - 1] == CarriageReturn then |msg| - 1 else |msg|;
    assert i < end;
    TypedStep(msg, i, end);
    var kept := if s == Tab || s == Backspace || s == CarriageReturn then [] else [s];
    assert next.buffer == st.buffer + kept by {
      if s == Backspace {
        assert st.buffer[..|st.buffer|] == st.buffer;
      }
    }
    assert next.waitForAutocomplete == (st.waitForAutocomplete || s == Tab);
    assert next.records == st.records;
    assert st.buffer + kept + Typed(msg[i + 1..end]) == st.buffer + Typed(msg[i..end]);
    if end == |msg| {
      assert msg[i..|msg|] == msg[i..] && msg[i + 1..|msg|] == msg[i + 1..];
    } else {
      assert i + 1 < |msg|;
    }
  }

  /**
   * The receive loop from index `i` on, where the byte at `i` is not a CR
   * in first place, is the closed form: a CR anywhere but at the end is
   * skipped, and buffering goes on after it.
   */
  lemma {:induction false} ReceiveRest(st: AuditState, msg: seq<byte>, i: nat)
    requires i <= |msg|
    requires i > 0 || i == |msg| || msg[i] != CarriageReturn
    ensures ReceiveFrom(st, msg, i) == Resume(st, msg, i)
    decreases |msg| - i
  {
    if i == |msg| {
      assert msg[i..] == [];
      assert !HasTab(msg, i);
    } else if msg[i] == CarriageReturn && i == |msg| - 1 {
      ReceiveLastCR(st, msg, i);
      assert st.buffer + Typed(msg[i..|msg| - 1]) == st.buffer;
      if st.buffer == [] {
        assert st == AuditState([], st.waitForAutocomplete, st.records);
      }
    } else {
      assert ReceiveFrom(st, msg, i) == ReceiveFrom(Next(st, msg[i]), msg, i + 1);
      ReceiveRest(Next(st, msg[i]), msg, i + 1);
      ResumeStep(st, msg, i);
    }
  }

  /** The last byte is CR, at an index past 0: it records a non-empty buffer and ends the chunk. */
  lemma ReceiveLastCR(st: AuditState, msg: seq<byte>, i: nat)
    requires i == |msg| - 1 && i > 0 && msg[i] == CarriageReturn
    ensures ReceiveFrom(st, msg, i) ==
      AuditState([], st.waitForAutocomplete, st.records + (if st.buffer != [] then [Record(st.buffer)] else []))
    ensures Typed(msg[i..|msg| - 1]) == [] && !HasTab(msg, i)
  {
    assert msg[i..|msg| - 1] == [];
    if |st.buffer| > 0 {
      var next := AuditState([], st.waitForAutocomplete, st.records + [Record(st.buffer)]);
      assert ReceiveFrom(next, msg, i + 1) == next;
    } else {
      assert ReceiveFrom(st, msg, i + 1) == st;
    }
  }

  /** One step of Typed over a slice. */
  lemma TypedStep(msg: seq<byte>, i: nat, j: nat)
    requires i < j <= |msg|
    ensures Typed(msg[i..j]) ==
      (if msg[i] == Tab || msg[i] == Backspace || msg[i] == CarriageReturn then [] else [msg[i]]) + Typed(msg[i + 1..j])
  {
    assert msg[i..j][1..] == msg[i + 1..j];
  }

  /**
   * The receive loop over any chunk. A chunk that starts with CR changes
   * nothing, except that a lone CR records a non-empty buffer. Otherwise the
   * bytes other than TAB, BS and CR are buffered in order. A CR as the last
   * byte completes the command: a non-empty command is recorded without the
   * prompt and the buffer is emptied. A TAB anywhere sets the flag.
   */
  lemma ReceiveChunk(st: AuditState, msg: seq<byte>)
    ensures ReceiveFrom(st, msg, 0) ==
      if |msg| > 0 && msg[0] == CarriageReturn then
        if |msg| == 1 && st.buffer != [] then AuditState([], st.waitForAutocomplete, st.records + [Record(st.buffer)])
        else st
      else if |msg| > 0 && msg[|msg| - 1] == CarriageReturn then
        var command := st.buffer + Typed(msg[..|msg| - 1]);
        AuditState([], st.waitForAutocomplete || HasTab(msg, 0),
                   st.records + (if command != [] then [Record(command)] else []))
      else
        AuditState(st.buffer + Typed(msg), st.waitForAutocomplete || HasTab(msg, 0), st.records)
  {
    if |msg| > 0 && msg[0] == CarriageReturn {
      if |msg| == 1 && st.buffer != [] {
        var next := AuditState([], st.waitForAutocomplete, st.records + [Record(st.buffer)]);
        assert ReceiveFrom(next, msg, 1) == next;
      }
    } else {
      ReceiveRest(st, msg, 0);
      assert msg[0..] == msg;
      if |msg| > 0 {
        assert msg[0..|msg| - 1] == msg[..|msg| - 1];
      }
    }
  }

  /**
   * Two lines in one chunk: "a", CR, "b", CR records the single command "ab",
   * as the CR inside the chunk is skipped.
   */
  lemma InnerCRJoinsLines(records: seq<seq<byte>>)
    ensures AuditChunk(AuditState([], false, records), Recive, [97, 13, 98, 13]) ==
      AuditState([], false, records + [MsgPrefix + [97, 98]])
  {
    var msg: seq<byte> := [97, 13, 98, 13];
    var st := AuditState([], false, records);
    assert FilterASCII(Recive, msg);
    ReceiveChunk(st, msg);
    var body := msg[..|msg| - 1];
    assert body == [97, 13, 98];
    var t1: seq<byte> := [98];
    var t2: seq<byte> := [13, 98];
    assert t1[1..] == [] && Typed(t1) == [98];
    assert t2[1..] == t1 && Typed(t2) == [98];
    assert body[1..] == t2;
    assert !HasTab(msg, 0);
    assert [] + Typed(body) == [97, 98];
    RemoveAllAbsent([97, 98], Prompt);
  }

  /**
   * A chunk that starts with CR is dropped, unless it is that lone CR ending
   * a non-empty command.
   */
  lemma LeadingCRAbandonsChunk(st: AuditState, msg: seq<byte>)
    requires |msg| > 0 && msg[0] == CarriageReturn
    requires |msg| > 1 || st.buffer == []
    ensures AuditChunk(st, Recive, msg) == st
  {
  }

  /**
   * A receive-direction chunk never puts CR, TAB or BS into the buffer, and
   * writes at most one record, which goes after the old ones.
   */
  lemma {:induction false} ReceiveBuffersOnlyTyped(st: AuditState, msg: seq<byte>, i: nat)
    ensures var r := ReceiveFrom(st, msg, i);
      && (forall b | b in r.buffer :: b in st.buffer || (b in msg && b != CarriageReturn && b != Tab && b != Backspace))
      && |st.records| <= |r.records| <= |st.records| + 1
      && r.records[..|st.records|] == st.records
    decreases |msg| - i
  {
    if i < |msg| {
      var s := msg[i];
      if s == Tab {
        ReceiveBuffersOnlyTyped(st.(waitForAutocomplete := true), msg, i + 1);
      } else if s == Backspace {
        assert st.buffer[..|st.buffer|] == st.buffer;
        ReceiveBuffersOnlyTyped(st, msg, i + 1);
      } else if s == CarriageReturn {
        if |st.buffer| > 0 && i == |msg| - 1 {
          var next := AuditState([], st.waitForAutocomplete, st.records + [Record(st.buffer)]);
          assert ReceiveFrom(next, msg, i + 1) == next;
          assert next.records[..|st.records|] == st.records;
        } else if i > 0 {
          ReceiveBuffersOnlyTyped(st, msg, i + 1);
        }
      } else {
        var next := st.(buffer := st.buffer + [s]);
        ReceiveBuffersOnlyTyped(next, msg, i + 1);
      }
    }
  }

  /** A whole audited chunk, either direction, writes at most one record and keeps the old ones. */
  lemma AtMostOneRecordPerChunk(st: AuditState, action: string, msg: seq<byte>)
    ensures var r := AuditChunk(st, action, msg);
      |st.records| <= |r.records| <= |st.records| + 1 && r.records[..|st.records|] == st.records
  {
    if FilterASCII(action, msg) && action == Recive && |msg| > 0 {
      ReceiveBuffersOnlyTyped(st, msg, 0);
    }
  }

  /** "ls" followed by CR, typed at an empty buffer, records "msg=ls" and empties the buffer. */
  lemma ListCommandRecorded(records: seq<seq<byte>>)
    ensures AuditChunk(AuditState([], false, records), Recive, [108, 115, 13]) ==
      AuditState([], false, records + [MsgPrefix + [108, 115]])
  {
    var line: seq<byte> := [108, 115];
    assert line + [CarriageReturn] == [108, 115, 13];
    CommandLine(AuditState([], false, records), line);
    assert Typed(line) == line by {
      assert line[1..] == [115];
      assert line[1..][1..] == [];
    }
    assert [] + Typed(line) == line;
    assert !HasTab(line, 0);
    RemoveAllAbsent(line, Prompt);
    assert Record(line) == MsgPrefix + [108, 115];
  }
}
