/**
 * The WebTTY session of webtty/webtty.go as a class whose methods update its
 * fields in place, as the source's do. The master and slave connections are
 * represented by `effects`, the calls made on them so far. The Info-level
 * audit log is represented by `records`. Both are ghost: they record what
 * the session does and are never read by it. Every method is proved against
 * the functions of modules Audit and Protocol.
 */
module Session {
  import opened Common
  import opened Audit
  import opened Protocol
  import Base64

  class WebTTY {
    /** The command codes of the protocol (package constants in the source). */
    const codes: Codes

    var windowTitle: seq<byte>
    var permitWrite: bool
    var columns: int
    var rows: int
    var reconnect: int          // in seconds
    var masterPrefs: Option<seq<byte>>
    var bufferSize: int

    var auditBuffer: seq<byte>
    var auditUser: string
    var waitForAutocomplete: bool

    /** Every call made on the master and the slave, in order. */
    ghost var effects: seq<Effect>
    /** The Info-level audit messages written, in order. */
    ghost var records: seq<seq<byte>>

    /** The configurable fields, as one value. */
    function Settings(): Config
      reads this`windowTitle, this`permitWrite, this`columns, this`rows, this`reconnect
      reads this`masterPrefs, this`bufferSize, this`auditUser
    {
      Config(windowTitle, permitWrite, columns, rows, reconnect, masterPrefs, bufferSize, auditUser)
    }

    /** The audit fields and the log, as one value. */
    ghost function AuditView(): AuditState
      reads this
    {
      AuditState(auditBuffer, waitForAutocomplete, records)
    }

    /** `New`: the defaults, then every option in order. */
    constructor New(codes: Codes, options: seq<SessionOption>)
      ensures this.codes == codes
      ensures Settings() == ApplyOptions(Defaults, options)
      ensures AuditView() == AuditState([], false, [])
      ensures effects == []
    {
      this.codes := codes;
      windowTitle := [];
      permitWrite := false;
      columns := 0;
      rows := 0;
      reconnect := 0;
      masterPrefs := None;
      bufferSize := 1024;
      auditBuffer := [];
      auditUser := "";
      waitForAutocomplete := false;
      effects := [];
      records := [];
      new;
      for i := 0 to |options|
        invariant Settings() == ApplyOptions(Defaults, options[..i])
        invariant AuditView() == AuditState([], false, []) && effects == []
      {
        Apply(options[i]);
        assert options[..i + 1][..i] == options[..i];
      }
      assert options[..|options|] == options;
    }

    /** An option: it assigns the one field it names. */
    method Apply(opt: SessionOption)
      modifies this
      ensures Settings() == ApplyOption(old(Settings()), opt)
      ensures AuditView() == old(AuditView()) && effects == old(effects)
    {
      match opt
      case WithWindowTitle(t) => windowTitle := t;
      case WithPermitWrite => permitWrite := true;
      case WithFixedColumns(c) => columns := c;
      case WithFixedRows(r) => rows := r;
      case WithReconnect(s) => reconnect := s;
      case WithMasterPreferences(p) => masterPrefs := Some(p);
      case WithBufferSize(n) => bufferSize := n;
      case WithAuditUser(u) => auditUser := u;
    }

    /** `masterWrite`: one write to the master; `ok` says whether it succeeds. */
    method MasterWriteFrame(frame: seq<byte>, ok: bool) returns (failed: bool)
      modifies this`effects
      ensures effects == old(effects) + [MasterWrite(frame)]
      ensures failed == !ok
    {
      effects := effects + [MasterWrite(frame)];
      failed := !ok;
    }

    /**
     * `sendInitializeMessage`: the window title, then the reconnect interval
     * when positive, then the preferences when set. The k-th write succeeds
     * when `ok(k)` holds; the first failure returns its error.
     */
    method SendInitializeMessage(ok: nat -> bool) returns (result: Outcome)
      modifies this`effects
      ensures var r := SendInitialize(Settings(), codes, ok);
        effects == old(effects) + r.effects && result == r.outcome
    {
      ghost var cfg := Settings();
      ghost var init := SendInitialize(cfg, codes, ok);
      var n: nat := 0;
      var failed := MasterWriteFrame([codes.setWindowTitle] + windowTitle, ok(n));
      if failed {
        InitTitleFails(cfg, codes, ok);
        assert effects == old(effects) + init.effects;
        return Failed(WindowTitleWriteFailed);
      }
      ghost var written: seq<Effect> := [MasterWrite(TitleFrame(cfg, codes))];
      n := n + 1;
      if reconnect > 0 {
        var text := Decimal(reconnect);
        failed := MasterWriteFrame([codes.setReconnect] + text, ok(n));
        if failed {
          InitReconnectFails(cfg, codes, ok);
          assert effects == old(effects) + init.effects;
          return Failed(ReconnectWriteFailed);
        }
        written := written + [MasterWrite(ReconnectFrame(cfg, codes))];
        n := n + 1;
      }
      assert effects == old(effects) + written;
      if masterPrefs.Some? {
        failed := MasterWriteFrame([codes.setPreferences] + masterPrefs.value, ok(n));
        written := written + [MasterWrite(PreferencesFrame(cfg, codes))];
        if failed {
          InitPreferencesFails(cfg, codes, ok);
          assert init.effects == written;
          return Failed(PreferencesWriteFailed);
        }
        n := n + 1;
      }
      InitSucceeds(cfg, codes, ok);
      assert init.effects == written;
      return Done;
    }

    /**
     * `handleSlaveReadEvent`: audit the chunk in the send direction, then
     * write one Output frame carrying it in base 64.
     */
    method HandleSlaveReadEvent(data: seq<byte>, ok: bool) returns (result: Outcome)
      modifies this
      ensures AuditView() == AuditChunk(old(AuditView()), Send, data)
      ensures Settings() == old(Settings())
      ensures var r := HandleSlave(codes, data, ok);
        effects == old(effects) + r.effects && result == r.outcome
    {
      RunAudit(Send, data);
      var safeMessage := Base64.Encode(data);
      var failed := MasterWriteFrame([codes.output] + safeMessage, ok);
      if failed {
        return Failed(OutputWriteFailed);
      }
      return Done;
    }

    /**
     * `handleMasterReadEvent`: reject a zero-length frame, audit the payload
     * in the "recive" direction, then dispatch on the type byte. `parse` is
     * the JSON decoding of a resize payload; `ok` whether the write succeeds.
     */
    method HandleMasterReadEvent(data: seq<byte>, parse: seq<byte> -> Option<ResizeArgs>, ok: bool)
      returns (result: Outcome)
      requires codes.Valid()
      modifies this
      ensures AuditView() == if |data| == 0 then old(AuditView()) else AuditChunk(old(AuditView()), Recive, data[1..])
      ensures Settings() == old(Settings())
      ensures var r := HandleMaster(old(Settings()), codes, data, parse, ok);
        effects == old(effects) + r.effects && result == r.outcome
    {
      if |data| == 0 {
        return Failed(ZeroLengthRead);
      }
      RunAudit(Recive, data[1..]);
      if data[0] == codes.input {
        if !permitWrite {
          return Done;
        }
        if |data| <= 1 {
          return Done;
        }
        effects := effects + [SlaveWrite(data[1..])];
        if !ok {
          return Failed(SlaveWriteFailed);
        }
      } else if data[0] == codes.ping {
        var failed := MasterWriteFrame([codes.pong], ok);
        if failed {
          return Failed(PongWriteFailed);
        }
      } else if data[0] == codes.resizeTerminal {
        if columns != 0 && rows != 0 {
          return Done;
        }
        if |data| <= 1 {
          return Failed(EmptyResizePayload);
        }
        var args := parse(data[1..]);
        if args.None? {
          return Failed(MalformedResizeData);
        }
        var r := rows;
        if r == 0 {
          r := args.value.rows;
        }
        var c := columns;
        if c == 0 {
          c := args.value.columns;
        }
        effects := effects + [SlaveResize(c, r)];
      } else {
        return Failed(UnknownMessageType(data[0]));
      }
      return Done;
    }

    /**
     * `audit`: skip what the filter drops. In the send direction, fold the
     * chunk into the command after a TAB. In the "recive" direction, run the
     * per-byte loop, which may stop early at a CR in first place.
     */
    method RunAudit(action: string, msg: seq<byte>)
      modifies this`auditBuffer, this`waitForAutocomplete, this`records
      ensures AuditView() == AuditChunk(old(AuditView()), action, msg)
    {
      if !FilterASCII(action, msg) {
        return;
      }
      if action == Send {
        if waitForAutocomplete {
          waitForAutocomplete := false;
          auditBuffer := auditBuffer + msg;
        }
      } else if action == Recive {
        if |msg| > 0 {
          for i := 0 to |msg|
            invariant ReceiveFrom(AuditView(), msg, i) == ReceiveFrom(old(AuditView()), msg, 0)
          {
            var s := msg[i];
            if s == Tab {
              waitForAutocomplete := true;
              continue;
            }
            if s == Backspace {
              auditBuffer := auditBuffer[..|auditBuffer|];
              continue;
            }
            if s == CarriageReturn {
              if |auditBuffer| > 0 && i == |msg| - 1 {
                records := records + [Record(auditBuffer)];
                auditBuffer := [];
                continue;
              }
              if i == 0 {
                return;
              }
            } else {
              auditBuffer := auditBuffer + [s];
            }
          }
        }
      }
    }
  }
}
