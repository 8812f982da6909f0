/** Packets of the GDB Remote Serial Protocol: escaping, framing, a retrying sender and a byte-driven receiver. */
module Rsp {
  import opened ByteOrder
  import opened Wrappers

  const DOLLAR: u8 := 0x24
  const HASH: u8 := 0x23
  const BRACE: u8 := 0x7d
  const STAR: u8 := 0x2a
  const PLUS: u8 := 0x2b
  const MINUS: u8 := 0x2d
  const MAX_ATTEMPTS: nat := 10

  predicate NeedsEscape(c: u8) {
    c == DOLLAR || c == HASH || c == BRACE || c == STAR
  }

  /** Exclusive or with 0x20: bit 5 changes, the others stay. */
  function Flip(c: u8): (r: u8)
    ensures r % 32 == c % 32 && r / 64 == c / 64 && r / 32 % 2 == 1 - c / 32 % 2
  {
    if c / 32 % 2 == 0 then c + 32 else c - 32
  }

  function EscapeChar(c: u8): seq<u8> {
    if NeedsEscape(c) then [BRACE, Flip(c)] else [c]
  }

  function Escape(s: seq<u8>): seq<u8> {
    if s == [] then [] else EscapeChar(s[0]) + Escape(s[1..])
  }

  /** The sum of two bytes in a byte. */
  function Plus(a: u8, b: u8): u8 {
    if a + b < 256 then a + b else a + b - 256
  }

  lemma PlusAssociates(a: u8, b: u8, c: u8)
    ensures Plus(Plus(a, b), c) == Plus(a, Plus(b, c))
    ensures Plus(a, b) == a <==> b == 0
  {
  }

  /** The sum of all bytes, as the receiver computes it. */
  function Sum(s: seq<u8>): u8 {
    if s == [] then 0 else Plus(s[0], Sum(s[1..]))
  }

  /** The sum of the bytes before the first NUL, as the sender computes it. */
  function Checksum(s: seq<u8>): u8 {
    if s == [] || s[0] == 0 then 0 else Plus(s[0], Checksum(s[1..]))
  }

  /** The sum of the bytes from the first NUL on. */
  function HiddenSum(s: seq<u8>): u8 {
    if s == [] then 0 else if s[0] == 0 then Sum(s[1..]) else HiddenSum(s[1..])
  }

  function HexDigit(n: nat): u8
    requires n < 16
  {
    if n < 10 then 0x30 + n else 0x61 + (n - 10)
  }

  /** The value of a hexadecimal digit; other characters count as zero. */
  function HexValue(c: u8): (n: nat)
    ensures n < 16
  {
    if 0x30 <= c <= 0x39 then c - 0x30
    else if 0x61 <= c <= 0x66 then c - 0x61 + 10
    else if 0x41 <= c <= 0x46 then c - 0x41 + 10
    else 0
  }

  function Frame(s: seq<u8>): seq<u8> {
    var sum := Checksum(Escape(s));
    [DOLLAR] + Escape(s) + [HASH, HexDigit(sum / 16), HexDigit(sum % 16)]
  }

  function Total(s: seq<u8>): nat {
    if s == [] then 0 else s[0] + Total(s[1..])
  }

  function BeforeNul(s: seq<u8>): seq<u8> {
    if s == [] || s[0] == 0 then [] else [s[0]] + BeforeNul(s[1..])
  }

  lemma PlusIsModulo(a: u8, n: nat)
    ensures Plus(a, n % 256) == (a + n) % 256
  {
  }

  lemma {:induction false} SumsAreTotals(s: seq<u8>)
    ensures Sum(s) == Total(s) % 256 && Checksum(s) == Total(BeforeNul(s)) % 256
  {
    hide Plus;
    if s != [] {
      SumsAreTotals(s[1..]);
      PlusIsModulo(s[0], Total(s[1..]));
      PlusIsModulo(s[0], Total(BeforeNul(s[1..])));
      if s[0] != 0 {
        assert BeforeNul(s)[1..] == BeforeNul(s[1..]);
      }
    }
  }

  /** The frame on the line: a dollar sign, the escaped string, a hash sign and two lower case hexadecimal digits for the
  sum of the bytes before the first NUL. */
  lemma FrameFormat(s: seq<u8>)
    ensures var sum, digits := Total(BeforeNul(Escape(s))) % 256, "0123456789abcdef";
      Frame(s) == [0x24] + Escape(s) + [0x23, digits[sum / 16] as int, digits[sum % 16] as int]
  {
    SumsAreTotals(Escape(s));
    var sum := Checksum(Escape(s));
    DigitInTable(sum / 16);
    DigitInTable(sum % 16);
  }

  lemma DigitInTable(n: nat)
    requires n < 16
    ensures HexDigit(n) == "0123456789abcdef"[n] as int
  {
  }

  /** What a receiver does with its input: it runs out of bytes or it returns a packet. Both with the acknowledges
  sent on the way. */
  datatype Reception = Starved(acks: seq<u8>) | Packet(text: seq<u8>, acks: seq<u8>, rest: seq<u8>)

  function Acked(ack: u8, r: Reception): Reception {
    r.(acks := [ack] + r.acks)
  }

  function Prefixed(acks: seq<u8>, r: Reception): Reception {
    r.(acks := acks + r.acks)
  }

  lemma PrefixedAck(acks: seq<u8>, ack: u8, r: Reception)
    ensures Prefixed([], r) == r
    ensures Prefixed(acks, Acked(ack, r)) == Prefixed(acks + [ack], r)
  {
    assert acks + ([ack] + r.acks) == acks + [ack] + r.acks;
  }

  /** The receiver from a point at which it has collected `text` with sum `sum`. */
  function Receive(input: seq<u8>, sum: u8, text: seq<u8>): Reception
    decreases |input|
  {
    if input == [] then Starved([])
    else if input[0] == DOLLAR then Receive(input[1..], 0, [])
    else if input[0] == HASH then
      if |input| < 3 then Starved([])
      else
        var ref := HexValue(input[1]) * 16 + HexValue(input[2]);
        if ref > 0 && ref != sum then Acked(MINUS, Receive(input[3..], 0, []))
        else Packet(text, [PLUS], input[3..])
    else if input[0] == BRACE then
      if |input| < 2 then Starved([])
      else Receive(input[2..], Plus(Plus(sum, input[0]), input[1]), text + [Flip(input[1])])
    else Receive(input[1..], Plus(sum, input[0]), text + [input[0]])
  }

  /** No unescaped frame end and no escape without its byte. */
  predicate Settled(p: seq<u8>) {
    if p == [] then true
    else if p[0] == BRACE then |p| >= 2 && Settled(p[2..])
    else p[0] != HASH && p[0] != DOLLAR && Settled(p[1..])
  }

  function Unescape(p: seq<u8>): seq<u8>
    requires Settled(p)
  {
    if p == [] then []
    else if p[0] == BRACE then [Flip(p[1])] + Unescape(p[2..])
    else [p[0]] + Unescape(p[1..])
  }

  lemma FlipTwice(c: u8)
    ensures Flip(Flip(c)) == c
    ensures NeedsEscape(c) ==> Flip(c) != 0
  {
  }

  /** What is sent for each character of a string, and that nothing but escapes has a special meaning then. */
  lemma {:induction false} EscapeMeans(s: seq<u8>, c: u8)
    ensures Escape([c]) ==
      if c == 0x24 then [0x7d, 0x04] else if c == 0x23 then [0x7d, 0x03]
      else if c == 0x7d then [0x7d, 0x5d] else if c == 0x2a then [0x7d, 0x0a] else [c]
    ensures Escape([c] + s) == Escape([c]) + Escape(s) && Escape([]) == []
    ensures 0x24 !in Escape(s) && 0x23 !in Escape(s) && 0x2a !in Escape(s)
  {
    assert [c][1..] == [] && ([c] + s)[1..] == s;
    if s != [] {
      EscapeMeans(s[1..], c);
    }
  }

  lemma {:induction false} EscapeRoundTrip(s: seq<u8>)
    ensures Settled(Escape(s)) && Unescape(Escape(s)) == s
    ensures 0 in Escape(s) <==> 0 in s
  {
    if s != [] {
      var e, more := EscapeChar(s[0]), Escape(s[1..]);
      EscapeRoundTrip(s[1..]);
      FlipTwice(s[0]);
      assert (e + more)[|e|..] == more;
      assert [s[0]] + s[1..] == s;
    }
  }

  /** Settled text is collected unescaped; all its bytes are summed. */
  lemma {:induction false} ReceiveText(p: seq<u8>, rest: seq<u8>, sum: u8, text: seq<u8>)
    requires Settled(p)
    ensures Receive(p + rest, sum, text) == Receive(rest, Plus(sum, Sum(p)), text + Unescape(p))
    decreases |p|
  {
    hide Plus, Flip;
    if p == [] {
      assert p + rest == rest && text + Unescape(p) == text;
      PlusAssociates(sum, 0, 0);
    } else {
      var n := if p[0] == BRACE then 2 else 1;
      assert (p + rest)[n..] == p[n..] + rest;
      if p[0] == BRACE {
        ReceiveText(p[2..], rest, Plus(Plus(sum, p[0]), p[1]), text + [Flip(p[1])]);
        assert p[1..][1..] == p[2..];
        assert text + [Flip(p[1])] + Unescape(p[2..]) == text + Unescape(p);
        assert Sum(p) == Plus(p[0], Plus(p[1], Sum(p[2..])));
        PlusAssociates(Plus(sum, p[0]), p[1], Sum(p[2..]));
        PlusAssociates(sum, p[0], Plus(p[1], Sum(p[2..])));
      } else {
        ReceiveText(p[1..], rest, Plus(sum, p[0]), text + [p[0]]);
        assert text + [p[0]] + Unescape(p[1..]) == text + Unescape(p);
        PlusAssociates(sum, p[0], Sum(p[1..]));
      }
    }
  }

  /** What the sender leaves out of its sum is what follows the first NUL. */
  lemma {:induction false} ChecksumMisses(s: seq<u8>)
    ensures Sum(s) == Plus(Checksum(s), HiddenSum(s))
    ensures Checksum(s) == Sum(s) <==> HiddenSum(s) == 0
    ensures 0 !in s ==> HiddenSum(s) == 0
  {
    if s != [] && s[0] != 0 {
      ChecksumMisses(s[1..]);
      PlusAssociates(s[0], Checksum(s[1..]), HiddenSum(s[1..]));
    }
    PlusAssociates(Checksum(s), HiddenSum(s), 0);
  }

  lemma HexRoundTrip(n: u8)
    ensures HexValue(HexDigit(n / 16)) * 16 + HexValue(HexDigit(n % 16)) == n
  {
  }

  /** The checksum of the frame is zero or misses nothing. */
  predicate Acceptable(s: seq<u8>) {
    Checksum(Escape(s)) == 0 || HiddenSum(Escape(s)) == 0
  }

  lemma NulFreeIsAcceptable(s: seq<u8>)
    requires 0 !in s
    ensures Acceptable(s)
  {
    EscapeRoundTrip(s);
    ChecksumMisses(Escape(s));
  }

  /** A frame is taken as the packet that was sent, or else it is rejected. */
  lemma ReceiveFrame(s: seq<u8>, rest: seq<u8>, sum: u8, text: seq<u8>)
    ensures Receive(Frame(s) + rest, sum, text)
            == if Acceptable(s) then Packet(s, [PLUS], rest) else Acked(MINUS, Receive(rest, 0, []))
  {
    hide Sum, Checksum, HiddenSum, Escape, HexDigit, HexValue, Settled, Unescape;
    var e, sent := Escape(s), Checksum(Escape(s));
    var tail := [HASH, HexDigit(sent / 16), HexDigit(sent % 16)] + rest;
    var body := e + tail;
    assert Frame(s) + rest == [DOLLAR] + body;
    assert ([DOLLAR] + body)[1..] == body;
    EscapeRoundTrip(s);
    ReceiveText(e, tail, 0, []);
    ChecksumMisses(e);
    HexRoundTrip(sent);
    assert tail[3..] == rest && [] + s == s;
  }

  lemma ReceiveNothing(acks: seq<u8>, sum: u8, text: seq<u8>)
    ensures Prefixed(acks, Receive([], sum, text)) == Starved(acks)
    ensures Prefixed(acks, Starved([])) == Starved(acks)
  {
  }

  lemma PrefixedPacket(acks: seq<u8>, text: seq<u8>, rest: seq<u8>)
    ensures Prefixed(acks, Packet(text, [PLUS], rest)) == Packet(text, acks + [PLUS], rest)
  {
  }

  /** What the next bytes of the input do to the receiver. */
  lemma ReceiveStep(ch: u8, input: seq<u8>, sum: u8, text: seq<u8>)
    ensures var r := Receive([ch] + input, sum, text);
      if ch == DOLLAR then r == Receive(input, 0, [])
      else if ch == HASH then
        if |input| < 2 then r == Starved([])
        else
          var ref := HexValue(input[0]) * 16 + HexValue(input[1]);
          r == if ref > 0 && ref != sum then Acked(MINUS, Receive(input[1..][1..], 0, []))
               else Packet(text, [PLUS], input[1..][1..])
      else if ch == BRACE then
        if input == [] then r == Starved([])
        else r == Receive(input[1..], Plus(Plus(sum, ch), input[0]), text + [Flip(input[0])])
      else r == Receive(input, Plus(sum, ch), text + [ch])
  {
    hide HexValue, Plus, Flip;
    var all := [ch] + input;
    assert all[1..] == input;
    if |input| >= 1 {
      assert all[2..] == input[1..];
    }
    if |input| >= 2 {
      assert all[3..] == input[1..][1..];
    }
  }

  // Noise and damage on the line

  /** Bytes before a packet that do not end one and leave no escape open. */
  predicate Noise(p: seq<u8>) {
    if p == [] then true
    else if p[0] == BRACE then |p| >= 2 && Noise(p[2..])
    else p[0] != HASH && Noise(p[1..])
  }

  lemma {:induction false} ReceiveAfterNoise(p: seq<u8>, rest: seq<u8>, sum: u8, text: seq<u8>)
    requires Noise(p) && rest != [] && rest[0] == DOLLAR
    ensures Receive(p + rest, sum, text) == Receive(rest, 0, [])
    decreases |p|
  {
    if p == [] {
      assert p + rest == rest;
    } else if p[0] == BRACE {
      assert (p + rest)[2..] == p[2..] + rest;
      ReceiveAfterNoise(p[2..], rest, Plus(Plus(sum, p[0]), p[1]), text + [Flip(p[1])]);
    } else {
      assert (p + rest)[1..] == p[1..] + rest;
      var starts := p[0] == DOLLAR;
      ReceiveAfterNoise(p[1..], rest, if starts then 0 else Plus(sum, p[0]), if starts then [] else text + [p[0]]);
    }
  }

  /** A transmission whose checksum is neither zero nor the sum of its text. */
  datatype Damaged = Damaged(body: seq<u8>, high: u8, low: u8) {
    predicate Valid() {
      Settled(body) && 0 < Ref() != Sum(body)
    }

    function Ref(): nat {
      HexValue(high) * 16 + HexValue(low)
    }

    function Bytes(): seq<u8> {
      [DOLLAR] + body + [HASH, high, low]
    }
  }

  function Transmitted(ds: seq<Damaged>): seq<u8> {
    if ds == [] then [] else ds[0].Bytes() + Transmitted(ds[1..])
  }

  function Repeat<T>(t: T, n: nat): (s: seq<T>)
    ensures |s| == n && forall i :: 0 <= i < n ==> s[i] == t
  {
    if n == 0 then [] else [t] + Repeat(t, n - 1)
  }

  lemma ReceiveOneDamaged(d: Damaged, rest: seq<u8>, sum: u8, text: seq<u8>)
    requires d.Valid()
    ensures Receive(d.Bytes() + rest, sum, text) == Acked(MINUS, Receive(rest, 0, []))
  {
    hide Sum, Settled, Unescape, HexValue;
    var tail := [HASH, d.high, d.low] + rest;
    assert d.Bytes() + rest == [DOLLAR] + (d.body + tail);
    assert ([DOLLAR] + (d.body + tail))[1..] == d.body + tail;
    ReceiveText(d.body, tail, 0, []);
    assert Plus(0, Sum(d.body)) == Sum(d.body);
    assert tail[3..] == rest;
  }

  lemma FirstOfMany(ds: seq<Damaged>, rest: seq<u8>, acks: seq<u8>)
    ensures ds == [] ==> Transmitted(ds) + rest == rest && Repeat(MINUS, 0) + acks == acks
    ensures ds != [] ==> Transmitted(ds) + rest == ds[0].Bytes() + (Transmitted(ds[1..]) + rest)
    ensures ds != [] ==> [MINUS] + (Repeat(MINUS, |ds| - 1) + acks) == Repeat(MINUS, |ds|) + acks
  {
    hide Damaged.Bytes;
  }

  /** Every damaged transmission is rejected once and leaves nothing behind. */
  lemma {:induction false} ReceiveDamaged(ds: seq<Damaged>, rest: seq<u8>)
    requires forall i :: 0 <= i < |ds| ==> ds[i].Valid()
    ensures var r := Receive(rest, 0, []);
      Receive(Transmitted(ds) + rest, 0, []) == r.(acks := Repeat(MINUS, |ds|) + r.acks)
  {
    hide Receive, Transmitted, Repeat, Damaged.Bytes, Damaged.Valid;
    FirstOfMany(ds, rest, Receive(rest, 0, []).acks);
    if ds != [] {
      ReceiveOneDamaged(ds[0], Transmitted(ds[1..]) + rest, 0, []);
      ReceiveDamaged(ds[1..], rest);
    }
  }

  // The sender

  /** How a sender ends: it got an acknowledge, gave up or ran out of answers, after some transmissions. */
  datatype Delivery =
    | Acknowledged(sent: nat, rest: seq<u8>)
    | GaveUp(sent: nat, rest: seq<u8>)
    | Unanswered(sent: nat)

  /** The first acknowledge of the input and what follows it; other bytes are skipped. */
  function NextAck(input: seq<u8>): (r: Option<(u8, seq<u8>)>)
    ensures r.Some? ==> (r.value.0 == PLUS || r.value.0 == MINUS) && |r.value.1| < |input|
  {
    if input == [] then None
    else if input[0] == PLUS || input[0] == MINUS then Some((input[0], input[1..]))
    else NextAck(input[1..])
  }

  /** Whatever stands before an acknowledge is skipped. */
  lemma {:induction false} AckAfterNoise(noise: seq<u8>, ack: u8, rest: seq<u8>)
    requires 0x2b !in noise && 0x2d !in noise && (ack == 0x2b || ack == 0x2d)
    ensures NextAck(noise + [ack] + rest) == Some((ack, rest)) && NextAck(noise) == None
  {
    var all := noise + [ack] + rest;
    if noise == [] {
      assert all == [ack] + rest && all[1..] == rest;
    } else {
      assert all[1..] == noise[1..] + [ack] + rest;
      AckAfterNoise(noise[1..], ack, rest);
    }
  }

  function Deliver(answers: seq<u8>, attempts: nat): (d: Delivery)
    ensures d.sent <= attempts
    decreases attempts
  {
    if attempts == 0 then GaveUp(0, answers)
    else
      match NextAck(answers)
      case None => Unanswered(1)
      case Some((ack, rest)) =>
        if ack == PLUS then Acknowledged(1, rest)
        else
          var d := Deliver(rest, attempts - 1);
          d.(sent := d.sent + 1)
  }

  /** Another attempt of a sender that made `sent` of them. */
  lemma DeliverStep(answers: seq<u8>, attempts: nat, sent: nat)
    requires attempts > 0
    ensures var d := Deliver(answers, attempts);
      match NextAck(answers)
      case None => d == Unanswered(1)
      case Some((ack, rest)) =>
        if ack == PLUS then d == Acknowledged(1, rest)
        else Sent(d, sent) == Sent(Deliver(rest, attempts - 1), sent + 1)
  {
  }

  function Sent(d: Delivery, n: nat): Delivery {
    d.(sent := d.sent + n)
  }

  lemma {:induction false} DeliverAfterRejections(k: nat, rest: seq<u8>, attempts: nat)
    requires k <= attempts
    ensures var d := Deliver(rest, attempts - k);
      Deliver(Repeat(MINUS, k) + rest, attempts) == d.(sent := d.sent + k)
  {
    var answers := Repeat(MINUS, k) + rest;
    if k == 0 {
      assert answers == rest;
    } else {
      assert answers[1..] == Repeat(MINUS, k - 1) + rest;
      DeliverAfterRejections(k - 1, rest, attempts - 1);
    }
  }

  /** After noise and fewer than ten damaged transmissions, the receiver gets exactly the string that was sent and
  the sender stops after one more transmission. */
  lemma PacketIsDelivered(s: seq<u8>, noise: seq<u8>, ds: seq<Damaged>, rest: seq<u8>)
    requires Acceptable(s) && Noise(noise) && |ds| < 10
    requires forall i :: 0 <= i < |ds| ==> ds[i].Valid()
    ensures var r := Receive(noise + (Transmitted(ds) + (Frame(s) + rest)), 0, []);
      && r == Packet(s, Repeat(MINUS, |ds|) + [PLUS], rest)
      && Deliver(r.acks, 10) == Acknowledged(|ds| + 1, [])
  {
    hide Receive, Frame, Acceptable;
    var line := Transmitted(ds) + (Frame(s) + rest);
    assert Frame(s)[0] == DOLLAR by { FrameStarts(s); }
    assert line[0] == DOLLAR by {
      if ds != [] {
        assert Transmitted(ds)[0] == DOLLAR;
      }
    }
    ReceiveAfterNoise(noise, line, 0, []);
    ReceiveDamaged(ds, Frame(s) + rest);
    ReceiveFrame(s, rest, 0, []);
    DeliverAfterRejections(|ds|, [PLUS], MAX_ATTEMPTS);
    assert Deliver([PLUS], MAX_ATTEMPTS - |ds|) == Acknowledged(1, []);
  }

  lemma FrameStarts(s: seq<u8>)
    ensures |Frame(s)| > 0 && Frame(s)[0] == DOLLAR
  {
  }

  function Frames(s: seq<u8>, n: nat): seq<u8> {
    if n == 0 then [] else Frame(s) + Frames(s, n - 1)
  }

  lemma {:induction false} ReceiveRejectedFrames(s: seq<u8>, n: nat)
    requires !Acceptable(s)
    ensures Receive(Frames(s, n), 0, []) == Starved(Repeat(MINUS, n))
  {
    hide Frame, Acceptable;
    if n > 0 {
      ReceiveFrame(s, Frames(s, n - 1), 0, []);
      ReceiveRejectedFrames(s, n - 1);
    }
  }

  /** On a line without errors a packet is delivered at once or never: the sender gives up after ten transmissions. */
  lemma DeliveredIffAcceptable(s: seq<u8>)
    ensures Acceptable(s) ==>
      Receive(Frame(s), 0, []) == Packet(s, [PLUS], []) && Deliver([PLUS], 10) == Acknowledged(1, [])
    ensures !Acceptable(s) ==>
      && Receive(Frames(s, 10), 0, []) == Starved(Repeat(MINUS, 10))
      && Deliver(Repeat(MINUS, 10), 10) == GaveUp(10, [])
  {
    hide Receive, Frame, Acceptable, Frames;
    if Acceptable(s) {
      ReceiveFrame(s, [], 0, []);
      assert Frame(s) + [] == Frame(s);
    } else {
      ReceiveRejectedFrames(s, MAX_ATTEMPTS);
      DeliverAfterRejections(MAX_ATTEMPTS, [], MAX_ATTEMPTS);
      assert Repeat(MINUS, MAX_ATTEMPTS) + [] == Repeat(MINUS, MAX_ATTEMPTS);
    }
  }

  /** A string with a NUL that cannot be sent: the sum the receiver computes is not the one in the frame. */
  lemma NulBreaksDelivery()
    ensures !Acceptable([1, 0, 1])
  {
    assert Escape([1]) == [1] && [1, 0, 1][1..] == [0, 1] && [0, 1][1..] == [1];
    assert Escape([0, 1]) == [0, 1] && Escape([1, 0, 1]) == [1, 0, 1];
    assert Sum([1]) == 1 && HiddenSum([0, 1]) == 1 && Checksum([0, 1]) == 0;
  }

  // The methods

  /** The byte stream to and from a client. */
  class Channel {
    var input: seq<u8>
    var output: seq<u8>

    constructor (input: seq<u8>)
      ensures this.input == input && output == []
    {
      this.input, output := input, [];
    }

    /** No result when the connection ends. */
    method RecvChar() returns (c: Option<u8>)
      modifies this`input
      ensures if old(input) == [] then c == None && input == []
              else c == Some(old(input)[0]) && input == old(input)[1..]
    {
      if input == [] {
        return None;
      }
      c := Some(input[0]);
      input := input[1..];
    }

    method SendChar(c: u8)
      modifies this`output
      ensures output == old(output) + [c]
    {
      output := output + [c];
    }

    method RecvPacket() returns (r: Option<seq<u8>>)
      modifies this
      ensures match Receive(old(input), 0, [])
        case Packet(text, acks, rest) => r == Some(text) && output == old(output) + acks && input == rest
        case Starved(acks) => r == None && output == old(output) + acks && input == []
    {
      hide Plus, Flip, HexValue, Receive, Prefixed;
      var checksum: u8, text: seq<u8> := 0, [];
      ghost var sent := [];
      var ch := RecvChar();
      assert (if ch.Some? then [ch.value] + input else []) == old(input);
      PrefixedAck([], PLUS, Receive(old(input), 0, []));
      while ch.Some?
        invariant output == old(output) + sent
        invariant Receive(old(input), 0, [])
                  == Prefixed(sent, Receive(if ch.Some? then [ch.value] + input else [], checksum, text))
        invariant ch.None? ==> input == []
        decreases |input| + if ch.Some? then 1 else 0
      {
        ReceiveStep(ch.value, input, checksum, text);
        if ch.value == DOLLAR {
          checksum, text := 0, [];
        } else if ch.value == HASH {
          var high := RecvChar();
          var low := RecvChar();
          if high.None? || low.None? {
            ReceiveNothing(sent, checksum, text);
            return None;
          }
          var refsum := HexValue(high.value) * 16 + HexValue(low.value);
          if refsum > 0 && refsum != checksum {
            SendChar(MINUS);
            PrefixedAck(sent, MINUS, Receive(input, 0, []));
            sent := sent + [MINUS];
            checksum, text := 0, [];
          } else {
            SendChar(PLUS);
            PrefixedPacket(sent, text, input);
            return Some(text);
          }
        } else if ch.value == BRACE {
          checksum := Plus(checksum, ch.value);
          ch := RecvChar();
          if ch.None? {
            ReceiveNothing(sent, checksum, text);
            return None;
          }
          checksum := Plus(checksum, ch.value);
          text := text + [Flip(ch.value)];
        } else {
          checksum := Plus(checksum, ch.value);
          text := text + [ch.value];
        }
        label next:
        ch := RecvChar();
        assert (if ch.Some? then [ch.value] + input else []) == old@next(input);
      }
      ReceiveNothing(sent, checksum, text);
      r := None;
    }

    /** The first acknowledge; none when the connection ends. */
    method RecvAck() returns (ack: Option<u8>)
      modifies this`input
      ensures match NextAck(old(input))
        case None => ack == None && input == []
        case Some((c, rest)) => ack == Some(c) && input == rest
    {
      ack := RecvChar();
      while ack.Some? && ack.value != PLUS && ack.value != MINUS
        invariant ack.None? ==> input == []
        invariant NextAck(old(input)) == NextAck(if ack.Some? then [ack.value] + input else [])
        decreases |input| + if ack.Some? then 1 else 0
      {
        assert ([ack.value] + input)[1..] == input;
        ack := RecvChar();
      }
      assert ack.Some? ==> ([ack.value] + input)[1..] == input;
    }

    method SendPacket(s: seq<u8>) returns (d: Delivery)
      modifies this
      ensures d == Deliver(old(input), 10)
      ensures output == old(output) + Frames(s, d.sent)
      ensures input == if d.Unanswered? then [] else d.rest
    {
      hide Frame, Frames, NextAck;
      FramesStart(s);
      var frame, attempts := Frame(s), MAX_ATTEMPTS;
      var sent := 0;
      while true
        invariant sent + attempts == MAX_ATTEMPTS
        invariant output == old(output) + Frames(s, sent)
        invariant Deliver(old(input), MAX_ATTEMPTS) == Sent(Deliver(input, attempts), sent)
        decreases attempts
      {
        if attempts == 0 {
          return GaveUp(sent, input);
        }
        DeliverStep(input, attempts, sent);
        attempts := attempts - 1;
        OneMoreFrame(s, sent);
        output := output + frame;
        sent := sent + 1;
        var ack := RecvAck();
        if ack.None? {
          return Unanswered(sent);
        }
        if ack.value == PLUS {
          return Acknowledged(sent, input);
        }
      }
    }
  }

  lemma FramesStart(s: seq<u8>)
    ensures Frames(s, 0) == []
  {
  }

  lemma {:induction false} OneMoreFrame(s: seq<u8>, n: nat)
    ensures Frames(s, n + 1) == Frames(s, n) + Frame(s)
  {
    if n > 0 {
      OneMoreFrame(s, n - 1);
    } else {
      assert Frames(s, 1) == Frame(s) + Frames(s, 0);
    }
  }
}
