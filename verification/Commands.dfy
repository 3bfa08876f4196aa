/** The command parser of the TCP side: what one message does, and which mode whole histories leave. */
module Commands {
  import opened MachineTypes

  const AMPLITUDE: Byte := 0xC3
  const AUTOMATIC: Byte := 0xFF
  const MANUAL_ABOVE: Byte := 0x00
  const MANUAL_BELOW: Byte := 0x7F
  const AUTOMATIC_SENT: Byte := 0x7F
  const BLIND_SECTOR: Word32 := 0xC7
  const RESET_FAULTS: Word32 := 0x1C9

  /** A received message; its length fits 16 bits. */
  type Message = m: seq<Byte> | |m| < 0x1_0000

  /** The message length as the parser sees it: modulo 256, so that it may be zero. */
  function ShortLength(m: Message): (n: nat)
    ensures n < 0x100 && n <= |m|
  {
    |m| % 0x100
  }

  function LastByte(m: Message): Byte
    requires ShortLength(m) > 0
  {
    m[ShortLength(m) - 1]
  }

  /** A short message that ends in 0xC3 sets the amplitude mode. */
  predicate SetsAmplitude(m: Message) { 0 < ShortLength(m) < 6 && LastByte(m) == AMPLITUDE }

  datatype Effect = Automatic | Manual | NoEffect

  function ModeEffect(m: Message): Effect {
    if SetsAmplitude(m) && m[0] == AUTOMATIC then Automatic
    else if SetsAmplitude(m) && MANUAL_ABOVE < m[0] < MANUAL_BELOW then Manual
    else NoEffect
  }

  /** Whether the gain task is suspended after `m`. */
  function NextMode(suspended: bool, m: Message): bool {
    match ModeEffect(m)
    case Automatic => false
    case Manual => true
    case NoEffect => suspended
  }

  /** The command that the monitor remembers: `None` leaves it as it was. */
  function CommandCode(m: Message): Option<Word32> {
    if ShortLength(m) >= 6 then Some(BLIND_SECTOR)
    else if ShortLength(m) == 0 then None
    else
      var last := LastByte(m);
      if last / 0x10 in {0xD, 0xE, 0xF} then Some(last / 0x10)
      else if last / 0x10 != 0xC then None
      else if last in {0xC0, 0xC1, 0xC2, 0xC3, 0xC4, 0xC5, 0xC6, 0xC8, 0xC9} then Some(last)
      else Some(RESET_FAULTS)
  }

  /** What these definitions select, in bytes. */
  lemma EffectInBytes(m: Message)
    ensures
      var n := |m| % 256;
      ModeEffect(m) ==
        if 1 <= n <= 5 && m[n - 1] == 0xC3 && m[0] == 0xFF then Automatic
        else if 1 <= n <= 5 && m[n - 1] == 0xC3 && 0x01 <= m[0] <= 0x7E then Manual
        else NoEffect
    ensures
      var n, code := |m| % 256, CommandCode(m);
      if n >= 6 then code == Some(0xC7)
      else if n == 0 || m[n - 1] < 0xC0 then code == None
      else if m[n - 1] >= 0xD0 then code == Some(m[n - 1] / 16)
      else if m[n - 1] == 0xC7 || m[n - 1] > 0xC9 then code == Some(0x1C9)
      else code == Some(m[n - 1])
  {
  }

  class CommandTask {
    var gainSuspended: bool
    var lastCommand: Word32
    var sentToPL: seq<seq<Byte>>
    var replies: seq<seq<Byte>>

    method HighNibble(data: array<Byte>, length: nat) returns (nibble: Byte)
      requires length <= data.Length
      ensures length == 0 ==> nibble == 0
      ensures length > 0 ==> 0x10 * nibble <= data[length - 1] < 0x10 * nibble + 0x10
    {
      if length == 0 {
        return 0;
      }
      return (data[length - 1] / 0x10) % 0x10;
    }

    /** The amplitude branch: automatic, manual, or a value that is ignored. */
    method SetAmplitude(payload: array<Byte>, length: nat)
      requires 0 < length <= payload.Length
      modifies this`gainSuspended, this`lastCommand, this`sentToPL, this`replies, payload
      ensures lastCommand == 0xC3 && replies == old(replies) + [old(payload[..])]
      ensures old(payload[0]) == 0xFF ==>
        && !gainSuspended
        && payload[..] == old(payload[..])[0 := 0x7F]
        && sentToPL == old(sentToPL) + [payload[..length]]
      ensures 0 < old(payload[0]) < 0x7F ==>
        gainSuspended && payload[..] == old(payload[..]) && sentToPL == old(sentToPL) + [payload[..length]]
      ensures old(payload[0]) in {0, 0x7F} || 0x7F < old(payload[0]) < 0xFF ==>
        gainSuspended == old(gainSuspended) && payload[..] == old(payload[..]) && sentToPL == old(sentToPL)
    {
      replies := replies + [payload[..]];
      if payload[0] == AUTOMATIC {
        if gainSuspended {
          gainSuspended := false;
        }
        payload[0] := AUTOMATIC_SENT;
        sentToPL := sentToPL + [payload[..length]];
      } else if payload[0] > MANUAL_ABOVE && payload[0] < MANUAL_BELOW {
        if !gainSuspended {
          gainSuspended := true;
        }
        sentToPL := sentToPL + [payload[..length]];
      }
      lastCommand := 0xC3;
    }

    /**
      One message: the branch is chosen by its length, its last byte and its first byte. A length that is
      a multiple of 256 counts as zero; its last byte is never looked at, as the nibble of no data is zero.
    */
    method ParseMessage(payload: array<Byte>)
      requires payload.Length < 0x1_0000
      modifies this, payload
      ensures
        var m: Message, n := old(payload[..]), payload.Length % 256;
        && gainSuspended == (if 1 <= n <= 5 && m[n - 1] == 0xC3 && m[0] == 0xFF then false
                             else if 1 <= n <= 5 && m[n - 1] == 0xC3 && 0x01 <= m[0] <= 0x7E then true
                             else old(gainSuspended))
        && payload[..] == (if 1 <= n <= 5 && m[n - 1] == 0xC3 && m[0] == 0xFF then m[0 := 0x7F] else m)
        && replies == old(replies) + (if 1 <= n <= 5 && m[n - 1] == 0xC3 then [m] else [])
        && sentToPL == old(sentToPL)
             + (if 1 <= n <= 5 && m[n - 1] == 0xC3 && (m[0] == 0xFF || 0x01 <= m[0] <= 0x7E) then [payload[..n]]
                else [])
      ensures
        var m: Message, n := old(payload[..]), payload.Length % 256;
        lastCommand == if n >= 6 then 0xC7
                       else if n == 0 || m[n - 1] < 0xC0 then old(lastCommand)
                       else if m[n - 1] >= 0xD0 then m[n - 1] / 16
                       else if m[n - 1] == 0xC7 || m[n - 1] > 0xC9 then 0x1C9
                       else m[n - 1]
      ensures gainSuspended == NextMode(old(gainSuspended), old(payload[..]))
      ensures CommandCode(old(payload[..])).Some? ==> lastCommand == CommandCode(old(payload[..])).value
    {
      var length := payload.Length % 0x100;
      var last: Byte := if length == 0 then 0 else payload[length - 1];
      if length < 6 {
        var nibble := HighNibble(payload, length);
        if nibble == 0xE {
          lastCommand := 0xE;
        } else if nibble == 0xF {
          lastCommand := 0xF;
        } else if nibble == 0xD {
          lastCommand := 0xD;
        } else if nibble == 0xC {
          if last == 0xC0 {
            lastCommand := 0xC0;
          } else if last == 0xC1 {
            lastCommand := 0xC1;
          } else if last == 0xC2 {
            lastCommand := 0xC2;
          } else if last == AMPLITUDE {
            SetAmplitude(payload, length);
          } else if last == 0xC4 {
            lastCommand := 0xC4;
          } else if last == 0xC5 {
            lastCommand := 0xC5;
          } else if last == 0xC6 {
            lastCommand := 0xC6;
          } else if last == 0xC8 {
            lastCommand := 0xC8;
          } else if last == 0xC9 {
            lastCommand := 0xC9;
          } else {
            lastCommand := RESET_FAULTS;
          }
        }
      } else {
        lastCommand := BLIND_SECTOR;
      }
    }
  }

  // ----- Whole histories

  function ModeAfter(messages: seq<Message>): bool {
    if messages == [] then false
    else NextMode(ModeAfter(messages[..|messages| - 1]), messages[|messages| - 1])
  }

  /** A message of one to five bytes, modulo 256, that ends in 0xC3 and begins with 0x01..0x7E. */
  predicate ManualBytes(m: Message) {
    1 <= |m| % 256 <= 5 && m[|m| % 256 - 1] == 0xC3 && 0x01 <= m[0] <= 0x7E
  }

  /** The same with first byte 0xFF. */
  predicate AutomaticBytes(m: Message) {
    1 <= |m| % 256 <= 5 && m[|m| % 256 - 1] == 0xC3 && m[0] == 0xFF
  }

  /** Message `i` is an effective manual command, and no message after it is an automatic one. */
  ghost predicate LatestManual(messages: seq<Message>, i: nat)
    requires i < |messages|
  {
    && ManualBytes(messages[i])
    && forall j :: i < j < |messages| ==> !AutomaticBytes(messages[j])
  }

  /**
    The gain task is suspended exactly when some message was an effective manual command and no
    message after it was an automatic one.
  */
  lemma {:induction false} ModeIsLatestEffective(messages: seq<Message>)
    ensures ModeAfter(messages) <==>
      exists i :: 0 <= i < |messages| && LatestManual(messages, i)
  {
    if messages != [] {
      var last := |messages| - 1;
      var before := messages[..last];
      ModeIsLatestEffective(before);
      if i :| 0 <= i < last && LatestManual(before, i) {
        assert LatestManual(messages, i) <==> !AutomaticBytes(messages[last]);
      }
      EffectInBytes(messages[last]);
      assert LatestManual(messages, last) <==> ManualBytes(messages[last]);
      if i :| 0 <= i < last && LatestManual(messages, i) {
        assert LatestManual(before, i);
      }
    }
  }
}
