/**
 * The control-character table of webtty/ascii.go and the debug rendering
 * `asciiToString` of webtty/webtty.go that uses it. The table maps the
 * code of every ASCII control character (0..31 and 127) to its mnemonic.
 */
module Ascii {
  import opened Common

  /**
   * `asciiControlChars[code]`: the mnemonic of a control code, and, as a
   * Go map read does for a missing key, the empty string for any other code.
   */
  function ControlChar(code: int): string {
    match code
    case 0 => "NUL"
    case 1 => "SOH"
    case 2 => "STX"
    case 3 => "ETX"
    case 4 => "EOT"
    case 5 => "ENQ"
    case 6 => "ACK"
    case 7 => "BEL"
    case 8 => "BS"
    case 9 => "HT"
    case 10 => "LF"
    case 11 => "VT"
    case 12 => "FF"
    case 13 => "CR"
    case 14 => "SO"
    case 15 => "SI"
    case 16 => "DLE"
    case 17 => "DC1"
    case 18 => "DC2"
    case 19 => "DC3"
    case 20 => "DC4"
    case 21 => "NAK"
    case 22 => "SYN"
    case 23 => "ETB"
    case 24 => "CAN"
    case 25 => "EM"
    case 26 => "SUB"
    case 27 => "ESC"
    case 28 => "FS"
    case 29 => "GS"
    case 30 => "RS"
    case 31 => "US"
    case 127 => "DEL"
    case _ => ""
  }

  /** The keys of the table: the codes with an entry. */
  function TableKeys(): set<int> {
    set k | 0 <= k < 128 && ControlChar(k) != ""
  }

  predicate IsControlCode(k: int) {
    0 <= k < 32 || k == 127
  }

  /**
   * A mnemonic: two upper-case ASCII letters, then possibly a third
   * character that is an upper-case letter or a decimal digit.
   */
  predicate IsMnemonic(m: string) {
    2 <= |m| <= 3 && IsUpper(m[0]) && IsUpper(m[1]) && (|m| == 3 ==> IsUpper(m[2]) || IsDigit(m[2]))
  }

  predicate IsUpper(c: char) {
    'A' <= c <= 'Z'
  }

  predicate IsDigit(c: char) {
    '0' <= c <= '9'
  }

  /** The codes 0..n-1, as a set. */
  function CodesBelow(n: nat): (codes: set<int>)
    ensures forall k :: k in codes <==> 0 <= k < n
  {
    if n == 0 then {} else CodesBelow(n - 1) + {n - 1}
  }

  lemma {:induction false} CodesBelowSize(n: nat)
    ensures |CodesBelow(n)| == n
  {
    if n > 0 {
      CodesBelowSize(n - 1);
      assert n - 1 !in CodesBelow(n - 1);
    }
  }

  /** The codes with an entry are exactly 0..31 and 127; no printable byte has one. */
  lemma KeysAreControlCodes()
    ensures forall k :: ControlChar(k) != "" <==> IsControlCode(k)
    ensures forall k | 32 <= k < 127 :: ControlChar(k) == ""
  {
  }

  /** The table has 33 entries. */
  lemma TableSize()
    ensures |TableKeys()| == 33
  {
    KeysAreControlCodes();
    assert TableKeys() == CodesBelow(32) + {127};
    CodesBelowSize(32);
  }

  /**
   * Every entry is a non-empty mnemonic of two or three characters. All are
   * upper-case letters except the digit that closes DC1..DC4.
   */
  lemma EntriesAreMnemonics()
    ensures forall k | ControlChar(k) != "" :: IsMnemonic(ControlChar(k))
  {
    forall k | ControlChar(k) != ""
      ensures IsMnemonic(ControlChar(k))
    {
      if k < 8 {
      } else if k < 16 {
      } else if k < 24 {
      } else if k < 32 {
      }
    }
  }

  /** The only mnemonics that are not all letters are those of codes 17..20. */
  lemma DigitOnlyInDeviceControls()
    ensures forall k | |ControlChar(k)| == 3 && IsDigit(ControlChar(k)[2]) :: 17 <= k <= 20
  {
    forall k | |ControlChar(k)| == 3 && IsDigit(ControlChar(k)[2])
      ensures 17 <= k <= 20
    {
      if k < 8 {
      } else if k < 16 {
      } else if k < 24 {
      } else if k < 32 {
      }
    }
  }

  /** No two codes share a mnemonic. */
  lemma TableInjective()
    ensures forall j, k | ControlChar(j) != "" && j != k :: ControlChar(j) != ControlChar(k)
  {
  }

  /** The entries of the bytes the audit engine itself reacts to, and of ESC and DEL. */
  lemma TableEntries()
    ensures ControlChar(8) == "BS" && ControlChar(9) == "HT" && ControlChar(10) == "LF"
    ensures ControlChar(13) == "CR" && ControlChar(27) == "ESC" && ControlChar(127) == "DEL"
  {
  }

  /**
   * One byte of `asciiToString`: a byte with a non-empty entry becomes
   * `*MNEMONIC*`, any other byte the character with that code (Go's
   * `string(a)` on a byte converts it as a rune).
   */
  function RenderByte(b: byte): string {
    var entry := ControlChar(b as int);
    if entry != "" then "*" + entry + "*" else [(b as int) as char]
  }

  /** The rendering of a whole chunk, byte after byte, left to right. */
  function Render(msg: seq<byte>): string
    decreases |msg|
  {
    if msg == [] then "" else Render(msg[..|msg| - 1]) + RenderByte(msg[|msg| - 1])
  }

  /** A control byte renders as its mnemonic between stars; every other byte as itself. */
  lemma RenderByteCases(b: byte)
    ensures IsControlCode(b as int) ==> RenderByte(b) == "*" + ControlChar(b as int) + "*"
    ensures !IsControlCode(b as int) ==> RenderByte(b) == [(b as int) as char]
    ensures 1 <= |RenderByte(b)| <= 5
  {
    KeysAreControlCodes();
    EntriesAreMnemonics();
  }

  /** Rendering distributes over concatenation. */
  lemma {:induction false} RenderAppend(a: seq<byte>, b: seq<byte>)
    ensures Render(a + b) == Render(a) + Render(b)
    decreases |b|
  {
    if b != [] {
      var last := b[|b| - 1];
      assert (a + b)[..|a + b| - 1] == a + b[..|b| - 1];
      RenderAppend(a, b[..|b| - 1]);
    } else {
      assert a + b == a;
    }
  }

  /** Every byte renders to between one and five characters. */
  lemma {:induction false} RenderLength(msg: seq<byte>)
    ensures |msg| <= |Render(msg)| <= 5 * |msg|
    decreases |msg|
  {
    if msg != [] {
      RenderLength(msg[..|msg| - 1]);
      RenderByteCases(msg[|msg| - 1]);
    }
  }

  /** A chunk without control bytes renders as the characters with the same codes. */
  lemma {:induction false} RenderPlain(msg: seq<byte>)
    requires forall i | 0 <= i < |msg| :: !IsControlCode(msg[i] as int)
    ensures Render(msg) == seq(|msg|, i requires 0 <= i < |msg| => (msg[i] as int) as char)
    decreases |msg|
  {
    if msg != [] {
      var init := msg[..|msg| - 1];
      RenderPlain(init);
      RenderByteCases(msg[|msg| - 1]);
    }
  }

  /** `asciiToString`: the accumulating loop over the chunk. */
  method AsciiToString(msg: seq<byte>) returns (s: string)
    ensures s == Render(msg)
  {
    s := "";
    for i := 0 to |msg|
      invariant s == Render(msg[..i])
    {
      var a := msg[i];
      var entry := ControlChar(a as int);
      var piece: string;
      if entry != "" {
        piece := "*" + entry + "*";
      } else {
        piece := [(a as int) as char];
      }
      assert piece == RenderByte(a);
      assert msg[..i + 1][..i] == msg[..i];
      s := s + piece;
    }
    assert msg[..|msg|] == msg;
  }
}
