/**
 * The framing and dispatch of the WebTTY session in webtty/webtty.go, as
 * functions from a frame to what the session does to its endpoints. A frame
 * is one command byte followed by a payload. The master and the slave are
 * seen only through the calls made on them (`Effect`). Whether a write fails
 * is an oracle passed in by the caller.
 */
module Protocol {
  import opened Common
  import Base64

  /**
   * The command codes, which a file outside this model declares. Nothing is
   * assumed of their values except what the `switch` of
   * `handleMasterReadEvent` needs to compile: its three cases are distinct.
   */
  datatype Codes = Codes(
    // client to server
    input: byte, ping: byte, resizeTerminal: byte,
    // server to client
    output: byte, pong: byte, setWindowTitle: byte, setPreferences: byte, setReconnect: byte)
  {
    predicate Valid() {
      input != ping && input != resizeTerminal && ping != resizeTerminal
    }
  }

  /** The configurable fields of a session. `masterPrefs` None is a nil slice. */
  datatype Config = Config(
    windowTitle: seq<byte>,
    permitWrite: bool,
    columns: int,
    rows: int,
    reconnect: int,
    masterPrefs: Option<seq<byte>>,
    bufferSize: int,
    auditUser: string)

  /** The values `New` starts from, before any option runs. */
  const Defaults: Config := Config([], false, 0, 0, 0, None, 1024, "")

  /** A session option. Each one assigns one field. */
  datatype SessionOption =
    | WithWindowTitle(title: seq<byte>)
    | WithPermitWrite
    | WithFixedColumns(columns: int)
    | WithFixedRows(rows: int)
    | WithReconnect(seconds: int)
    | WithMasterPreferences(prefs: seq<byte>)
    | WithBufferSize(size: int)
    | WithAuditUser(user: string)

  function ApplyOption(cfg: Config, opt: SessionOption): Config {
    match opt
    case WithWindowTitle(t) => cfg.(windowTitle := t)
    case WithPermitWrite => cfg.(permitWrite := true)
    case WithFixedColumns(c) => cfg.(columns := c)
    case WithFixedRows(r) => cfg.(rows := r)
    case WithReconnect(s) => cfg.(reconnect := s)
    case WithMasterPreferences(p) => cfg.(masterPrefs := Some(p))
    case WithBufferSize(n) => cfg.(bufferSize := n)
    case WithAuditUser(u) => cfg.(auditUser := u)
  }

  /** The options applied in order, each to the result of the ones before. */
  function ApplyOptions(cfg: Config, opts: seq<SessionOption>): Config
    decreases |opts|
  {
    if opts == [] then cfg else ApplyOption(ApplyOptions(cfg, opts[..|opts| - 1]), opts[|opts| - 1])
  }

  /**
   * Write permission is denied unless some option grants it, and the
   * terminal size is not fixed unless some option fixes it.
   */
  lemma {:induction false} DefaultDeny(opts: seq<SessionOption>)
    ensures ApplyOptions(Defaults, opts).permitWrite <==> WithPermitWrite in opts
    ensures (forall i | 0 <= i < |opts| :: !opts[i].WithFixedColumns?) ==> ApplyOptions(Defaults, opts).columns == 0
    ensures (forall i | 0 <= i < |opts| :: !opts[i].WithFixedRows?) ==> ApplyOptions(Defaults, opts).rows == 0
    decreases |opts|
  {
    if opts != [] {
      var init := opts[..|opts| - 1];
      DefaultDeny(init);
      assert opts == init + [opts[|opts| - 1]];
      assert WithPermitWrite in opts <==> WithPermitWrite in init || opts[|opts| - 1] == WithPermitWrite;
    }
  }

  /** A call on an endpoint: a write to the master, a write to the slave, or a resize of the slave. */
  datatype Effect =
    | MasterWrite(frame: seq<byte>)
    | SlaveWrite(data: seq<byte>)
    | SlaveResize(columns: int, rows: int)

  /** The errors the session returns; the wrapped write errors say which write failed. */
  datatype ErrorKind =
    | ZeroLengthRead                // "unexpected zero length read from master"
    | UnknownMessageType(code: byte)
    | EmptyResizePayload            // "malformed remote command for terminal resize: empty payload"
    | MalformedResizeData           // the JSON of a resize did not parse
    | SlaveWriteFailed              // "failed to write received data to slave"
    | PongWriteFailed               // "failed to return Pong message to master"
    | OutputWriteFailed             // "failed to send message to master"
    | WindowTitleWriteFailed        // "failed to send window title"
    | ReconnectWriteFailed          // "failed to set reconnect"
    | PreferencesWriteFailed        // "failed to set preferences"

  datatype Outcome = Done | Failed(error: ErrorKind)

  /** What one handler call does: the endpoint calls made, in order, and what it returns. */
  datatype Step = Step(effects: seq<Effect>, outcome: Outcome)

  /** The decoded arguments of a ResizeTerminal frame, already truncated to integers. */
  datatype ResizeArgs = ResizeArgs(columns: int, rows: int)

  // ---------------------------------------------------------------------
  // Decimal text of the reconnect interval (`json.Marshal` of an int)
  // ---------------------------------------------------------------------

  predicate IsDigit(b: byte) {
    48 <= b <= 57
  }

  predicate AllDigits(s: seq<byte>) {
    forall i | 0 <= i < |s| :: IsDigit(s[i])
  }

  /** The ASCII digits '0'..'9'. */
  const DigitBytes: seq<byte> := [48, 49, 50, 51, 52, 53, 54, 55, 56, 57]

  /** The value of an ASCII digit. */
  function DigitValue(b: byte): int
    requires IsDigit(b)
  {
    (b - 48) as int
  }

  lemma DigitBytesValues(d: int)
    requires 0 <= d < 10
    ensures IsDigit(DigitBytes[d]) && DigitValue(DigitBytes[d]) == d
  {
  }

  /** The decimal digits of n, most significant first, without leading zeros. */
  function Decimal(n: nat): (r: seq<byte>)
    ensures |r| >= 1 && AllDigits(r)
    ensures n > 0 ==> r[0] != 48
    decreases n
  {
    DigitBytesValues(n % 10);
    if n < 10 then [DigitBytes[n]] else Decimal(n / 10) + [DigitBytes[n % 10]]
  }

  /** The number a string of decimal digits denotes. */
  function DecimalValue(s: seq<byte>): nat
    requires AllDigits(s)
    decreases |s|
  {
    if s == [] then 0 else DecimalValue(s[..|s| - 1]) * 10 + DigitValue(s[|s| - 1])
  }

  /** Reading the digits back gives the number. */
  lemma {:induction false} DecimalRoundTrip(n: nat)
    ensures DecimalValue(Decimal(n)) == n
    decreases n
  {
    var d := Decimal(n);
    DigitBytesValues(n % 10);
    if n >= 10 {
      DecimalRoundTrip(n / 10);
      assert d[..|d| - 1] == Decimal(n / 10);
    } else {
      assert d[..|d| - 1] == [];
    }
  }

  // ---------------------------------------------------------------------
  // sendInitializeMessage
  // ---------------------------------------------------------------------

  /** A frame still to be written, and the error returned if writing it fails. */
  datatype Pending = Pending(frame: seq<byte>, failure: ErrorKind)

  /** The window-title frame. */
  function TitleFrame(cfg: Config, c: Codes): seq<byte> {
    [c.setWindowTitle] + cfg.windowTitle
  }

  /** The reconnect frame: the interval in decimal. */
  function ReconnectFrame(cfg: Config, c: Codes): seq<byte>
    requires cfg.reconnect > 0
  {
    [c.setReconnect] + Decimal(cfg.reconnect)
  }

  /** The preferences frame: the preferences as they are. */
  function PreferencesFrame(cfg: Config, c: Codes): seq<byte>
    requires cfg.masterPrefs.Some?
  {
    [c.setPreferences] + cfg.masterPrefs.value
  }

  /**
   * The frames the session sends first, in order: the window title, the
   * reconnect interval only when positive, the preferences only when set.
   */
  function InitMessages(cfg: Config, c: Codes): seq<Pending> {
    [Pending(TitleFrame(cfg, c), WindowTitleWriteFailed)] +
    (if cfg.reconnect > 0 then [Pending(ReconnectFrame(cfg, c), ReconnectWriteFailed)] else []) +
    (if cfg.masterPrefs.Some? then [Pending(PreferencesFrame(cfg, c), PreferencesWriteFailed)] else [])
  }

  /**
   * The title frame is always first; the reconnect frame, when there is one,
   * comes second and carries the interval in decimal; the preferences frame,
   * when there is one, comes last.
   */
  lemma InitMessagesContent(cfg: Config, c: Codes)
    ensures var ms := InitMessages(cfg, c);
      && |ms| == 1 + (if cfg.reconnect > 0 then 1 else 0) + (if cfg.masterPrefs.Some? then 1 else 0)
      && ms[0] == Pending([c.setWindowTitle] + cfg.windowTitle, WindowTitleWriteFailed)
      && (cfg.reconnect > 0 ==>
            && ms[1].failure == ReconnectWriteFailed
            && |ms[1].frame| >= 2 && ms[1].frame[0] == c.setReconnect
            && AllDigits(ms[1].frame[1..]) && DecimalValue(ms[1].frame[1..]) == cfg.reconnect)
      && (cfg.masterPrefs.Some? ==>
            ms[|ms| - 1] == Pending([c.setPreferences] + cfg.masterPrefs.value, PreferencesWriteFailed))
  {
    if cfg.reconnect > 0 {
      DecimalRoundTrip(cfg.reconnect);
      var frame := [c.setReconnect] + Decimal(cfg.reconnect);
      assert frame[1..] == Decimal(cfg.reconnect);
    }
  }

  /**
   * Writes the frames of `ms` from index `i` on, stopping at the first write
   * that fails; the write numbered k fails when `ok(k)` is false.
   */
  function WriteFrom(ms: seq<Pending>, ok: nat -> bool, i: nat): Step
    requires i <= |ms|
    decreases |ms| - i
  {
    if i == |ms| then Step([], Done)
    else if !ok(i) then Step([MasterWrite(ms[i].frame)], Failed(ms[i].failure))
    else
      var rest := WriteFrom(ms, ok, i + 1);
      Step([MasterWrite(ms[i].frame)] + rest.effects, rest.outcome)
  }

  /**
   * The frames are written in order from index `i`; the outcome is Done
   * exactly when every write succeeds, and then every frame is written;
   * otherwise the last frame written is the first whose write failed, and
   * the outcome is its error.
   */
  lemma {:induction false} WriteFromStops(ms: seq<Pending>, ok: nat -> bool, i: nat)
    requires i <= |ms|
    ensures var r := WriteFrom(ms, ok, i);
      && |r.effects| <= |ms| - i
      && (forall j | 0 <= j < |r.effects| :: r.effects[j] == MasterWrite(ms[i + j].frame))
      && (r.outcome.Done? <==> forall k | i <= k < |ms| :: ok(k))
      && (r.outcome.Done? ==> |r.effects| == |ms| - i)
      && (r.outcome.Failed? ==>
            && |r.effects| > 0
            && !ok(i + |r.effects| - 1)
            && r.outcome.error == ms[i + |r.effects| - 1].failure
            && forall k | i <= k < i + |r.effects| - 1 :: ok(k))
    decreases |ms| - i
  {
    if i < |ms| && ok(i) {
      WriteFromStops(ms, ok, i + 1);
    }
  }

  /** A failing write ends the sequence with that frame's error. */
  lemma WriteFromFails(ms: seq<Pending>, ok: nat -> bool, i: nat)
    requires i < |ms| && !ok(i)
    ensures WriteFrom(ms, ok, i) == Step([MasterWrite(ms[i].frame)], Failed(ms[i].failure))
  {
  }

  /** A successful write is followed by the writes of the frames after it. */
  lemma WriteFromWrites(ms: seq<Pending>, ok: nat -> bool, i: nat)
    requires i < |ms| && ok(i)
    ensures WriteFrom(ms, ok, i) ==
      Step([MasterWrite(ms[i].frame)] + WriteFrom(ms, ok, i + 1).effects, WriteFrom(ms, ok, i + 1).outcome)
  {
  }

  /**
   * `sendInitializeMessage`: the initial frames are written in order. The
   * first write that fails ends it with that frame's error, and no later
   * frame is written.
   */
  function SendInitialize(cfg: Config, c: Codes, ok: nat -> bool): Step {
    WriteFrom(InitMessages(cfg, c), ok, 0)
  }

  /**
   * `sendInitializeMessage` writes the initial frames in order; it is Done
   * exactly when every write succeeds, and otherwise stops at the first
   * write that fails, with that frame's error.
   */
  lemma SendInitializeStops(cfg: Config, c: Codes, ok: nat -> bool)
    ensures var r := SendInitialize(cfg, c, ok);
      var ms := InitMessages(cfg, c);
      && |r.effects| <= |ms|
      && (forall j | 0 <= j < |r.effects| :: r.effects[j] == MasterWrite(ms[j].frame))
      && (r.outcome.Done? <==> forall k | 0 <= k < |ms| :: ok(k))
      && (r.outcome.Done? ==> |r.effects| == |ms|)
      && (r.outcome.Failed? ==>
            && |r.effects| > 0
            && !ok(|r.effects| - 1)
            && r.outcome.error == ms[|r.effects| - 1].failure
            && forall k | 0 <= k < |r.effects| - 1 :: ok(k))
  {
    WriteFromStops(InitMessages(cfg, c), ok, 0);
  }

  /** The window title failing: nothing else is written. */
  lemma InitTitleFails(cfg: Config, c: Codes, ok: nat -> bool)
    requires !ok(0)
    ensures SendInitialize(cfg, c, ok) == Step([MasterWrite(TitleFrame(cfg, c))], Failed(WindowTitleWriteFailed))
  {
    WriteFromFails(InitMessages(cfg, c), ok, 0);
  }

  /** The reconnect frame failing after the title: nothing after it is written. */
  lemma InitReconnectFails(cfg: Config, c: Codes, ok: nat -> bool)
    requires cfg.reconnect > 0 && ok(0) && !ok(1)
    ensures SendInitialize(cfg, c, ok) ==
      Step([MasterWrite(TitleFrame(cfg, c)), MasterWrite(ReconnectFrame(cfg, c))], Failed(ReconnectWriteFailed))
  {
    var ms := InitMessages(cfg, c);
    WriteFromWrites(ms, ok, 0);
    WriteFromFails(ms, ok, 1);
  }

  /** The title and, if any, the reconnect frame written; what is left is the preferences frame, if any. */
  lemma InitHeadWritten(cfg: Config, c: Codes, ok: nat -> bool)
    requires ok(0) && (cfg.reconnect > 0 ==> ok(1))
    ensures var ms := InitMessages(cfg, c);
      var n := if cfg.reconnect > 0 then 2 else 1;
      var head := [MasterWrite(TitleFrame(cfg, c))] + (if cfg.reconnect > 0 then [MasterWrite(ReconnectFrame(cfg, c))] else []);
      n <= |ms| && SendInitialize(cfg, c, ok) == Step(head + WriteFrom(ms, ok, n).effects, WriteFrom(ms, ok, n).outcome)
  {
    var ms := InitMessages(cfg, c);
    WriteFromWrites(ms, ok, 0);
    if cfg.reconnect > 0 {
      WriteFromWrites(ms, ok, 1);
    }
  }

  /** The preferences frame failing after the others: it is the last frame written. */
  lemma InitPreferencesFails(cfg: Config, c: Codes, ok: nat -> bool)
    requires cfg.masterPrefs.Some?
    requires ok(0) && (cfg.reconnect > 0 ==> ok(1))
    requires !ok(if cfg.reconnect > 0 then 2 else 1)
    ensures SendInitialize(cfg, c, ok) ==
      Step([MasterWrite(TitleFrame(cfg, c))] +
           (if cfg.reconnect > 0 then [MasterWrite(ReconnectFrame(cfg, c))] else []) +
           [MasterWrite(PreferencesFrame(cfg, c))],
           Failed(PreferencesWriteFailed))
  {
    var ms := InitMessages(cfg, c);
    InitHeadWritten(cfg, c, ok);
    WriteFromFails(ms, ok, |ms| - 1);
  }

  /** Every write succeeding: all the frames are written, in order. */
  lemma InitSucceeds(cfg: Config, c: Codes, ok: nat -> bool)
    requires ok(0) && (cfg.reconnect > 0 ==> ok(1))
    requires cfg.masterPrefs.Some? ==> ok(if cfg.reconnect > 0 then 2 else 1)
    ensures SendInitialize(cfg, c, ok) ==
      Step([MasterWrite(TitleFrame(cfg, c))] +
           (if cfg.reconnect > 0 then [MasterWrite(ReconnectFrame(cfg, c))] else []) +
           (if cfg.masterPrefs.Some? then [MasterWrite(PreferencesFrame(cfg, c))] else []),
           Done)
  {
    var ms := InitMessages(cfg, c);
    InitHeadWritten(cfg, c, ok);
    if cfg.masterPrefs.Some? {
      WriteFromWrites(ms, ok, |ms| - 1);
    }
  }

  // ---------------------------------------------------------------------
  // handleSlaveReadEvent
  // ---------------------------------------------------------------------

  /**
   * The Output frame for a chunk read from the slave: the Output code, then
   * the chunk in standard base 64, which decodes back to the chunk.
   */
  function OutputFrame(c: Codes, data: seq<byte>): (frame: seq<byte>)
    ensures |frame| == 1 + 4 * ((|data| + 2) / 3)
    ensures frame[0] == c.output
    ensures Base64.Decode(frame[1..]) == Some(data)
  {
    Base64.DecodeEncode(data);
    var frame := [c.output] + Base64.Encode(data);
    assert frame[1..] == Base64.Encode(data);
    frame
  }

  /** `handleSlaveReadEvent` after the audit: exactly one master write, the Output frame. */
  function HandleSlave(c: Codes, data: seq<byte>, ok: bool): (r: Step)
    ensures |r.effects| == 1 && r.effects[0].MasterWrite?
    ensures |r.effects[0].frame| == 1 + 4 * ((|data| + 2) / 3)
    ensures r.effects[0].frame[0] == c.output && Base64.Decode(r.effects[0].frame[1..]) == Some(data)
    ensures r.outcome.Failed? <==> !ok
    ensures r.outcome.Failed? ==> r.outcome.error == OutputWriteFailed
  {
    Step([MasterWrite(OutputFrame(c, data))], if ok then Done else Failed(OutputWriteFailed))
  }

  // ---------------------------------------------------------------------
  // handleMasterReadEvent
  // ---------------------------------------------------------------------

  /** One axis of a resize: a fixed (non-zero) size wins over the requested one. */
  function Effective(fixed: int, requested: int): (size: int)
    ensures fixed != 0 ==> size == fixed
    ensures fixed == 0 ==> size == requested
  {
    if fixed != 0 then fixed else requested
  }

  /** True when both dimensions are fixed, so that resize requests are accepted and ignored. */
  predicate SizeFixed(cfg: Config) {
    cfg.columns != 0 && cfg.rows != 0
  }

  /**
   * `handleMasterReadEvent` after the audit: the dispatch on the type byte.
   * `parse` is the decoding of a resize payload, `ok` whether the one write
   * this frame makes succeeds.
   */
  function HandleMaster(cfg: Config, c: Codes, data: seq<byte>, parse: seq<byte> -> Option<ResizeArgs>, ok: bool): (r: Step)
    requires c.Valid()
    // a frame makes at most one endpoint call
    ensures |r.effects| <= 1
    // a zero-length frame, and an unknown type, fail without any call
    ensures |data| == 0 ==> r == Step([], Failed(ZeroLengthRead))
    ensures |data| > 0 && data[0] !in {c.input, c.ping, c.resizeTerminal} ==>
      r == Step([], Failed(UnknownMessageType(data[0])))
    // Input: the payload goes to the slave iff writing is permitted and there is a payload
    ensures (r.effects != [] && r.effects[0].SlaveWrite?) <==>
      |data| > 1 && data[0] == c.input && cfg.permitWrite
    ensures forall e | e in r.effects && e.SlaveWrite? :: |data| > 1 && e.data == data[1..]
    ensures |data| > 0 && data[0] == c.input ==> (r.outcome.Failed? <==> r.effects != [] && !ok)
    ensures |data| > 0 && data[0] == c.input && r.outcome.Failed? ==> r.outcome.error == SlaveWriteFailed
    // Ping: answered with exactly one Pong frame and nothing else
    ensures (r.effects != [] && r.effects[0].MasterWrite?) <==> |data| > 0 && data[0] == c.ping
    ensures forall e | e in r.effects && e.MasterWrite? :: e.frame == [c.pong]
    ensures |data| > 0 && data[0] == c.ping ==> (r.outcome.Failed? <==> !ok)
    ensures |data| > 0 && data[0] == c.ping && r.outcome.Failed? ==> r.outcome.error == PongWriteFailed
    // ResizeTerminal: ignored when the size is fixed, else an error unless the payload parses
    ensures (r.effects != [] && r.effects[0].SlaveResize?) <==>
      |data| > 1 && data[0] == c.resizeTerminal && !SizeFixed(cfg) && parse(data[1..]).Some?
    ensures |data| > 0 && data[0] == c.resizeTerminal ==>
      (r.outcome.Failed? <==> !SizeFixed(cfg) && (|data| == 1 || parse(data[1..]).None?))
    ensures |data| == 1 && data[0] == c.resizeTerminal && !SizeFixed(cfg) ==> r.outcome == Failed(EmptyResizePayload)
    ensures |data| > 1 && data[0] == c.resizeTerminal && !SizeFixed(cfg) && parse(data[1..]).None? ==>
      r.outcome == Failed(MalformedResizeData)
    ensures |data| > 1 && data[0] == c.resizeTerminal && !SizeFixed(cfg) && parse(data[1..]).Some? ==>
      var args := parse(data[1..]).value;
      r.effects == [SlaveResize(Effective(cfg.columns, args.columns), Effective(cfg.rows, args.rows))]
  {
    if |data| == 0 then Step([], Failed(ZeroLengthRead))
    else if data[0] == c.input then
      if !cfg.permitWrite then Step([], Done)
      else if |data| <= 1 then Step([], Done)
      else Step([SlaveWrite(data[1..])], if ok then Done else Failed(SlaveWriteFailed))
    else if data[0] == c.ping then
      Step([MasterWrite([c.pong])], if ok then Done else Failed(PongWriteFailed))
    else if data[0] == c.resizeTerminal then
      if SizeFixed(cfg) then Step([], Done)
      else if |data| <= 1 then Step([], Failed(EmptyResizePayload))
      else
        match parse(data[1..])
        case None => Step([], Failed(MalformedResizeData))
        case Some(args) =>
          Step([SlaveResize(Effective(cfg.columns, args.columns), Effective(cfg.rows, args.rows))], Done)
    else Step([], Failed(UnknownMessageType(data[0])))
  }
}
