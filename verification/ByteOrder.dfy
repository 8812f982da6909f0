/** Machine words and their byte images.

A register value is an unsigned word of `n` bytes. The simulator copies the bytes of the word
as the host machine stores it, after swapping them when the device has the other byte order.
*/
module ByteOrder {
  import Layout

  type u8 = x: int | 0 <= x < 256

  /** Bytes at addresses; addresses without memory have none. */
  type Memory = map<nat, u8>

  datatype Endian = Little | Big

  /** The number of values of an n-byte word. */
  function WordRange(n: nat): (r: nat)
    ensures r > 0
  {
    if n == 0 then 1 else 256 * WordRange(n - 1)
  }

  function Reverse<T>(s: seq<T>): (r: seq<T>)
    ensures |r| == |s|
    ensures forall i :: 0 <= i < |s| ==> r[i] == s[|s| - 1 - i]
  {
    seq(|s|, i requires 0 <= i < |s| => s[|s| - 1 - i])
  }

  /** The bytes of a word, least significant byte first. */
  function LittleBytes(v: nat, n: nat): (s: seq<u8>)
    ensures |s| == n
  {
    if n == 0 then [] else [v % 256] + LittleBytes(v / 256, n - 1)
  }

  function FromLittle(s: seq<u8>): (v: nat)
    ensures v < WordRange(|s|)
  {
    if s == [] then 0 else s[0] + 256 * FromLittle(s[1..])
  }

  /** The bytes of a word in ascending address order on a machine of byte order `e`. */
  function Bytes(e: Endian, v: nat, n: nat): (s: seq<u8>)
    ensures |s| == n
  {
    if e.Little? then LittleBytes(v, n) else Reverse(LittleBytes(v, n))
  }

  function FromBytes(e: Endian, s: seq<u8>): (v: nat)
    ensures v < WordRange(|s|)
  {
    FromLittle(if e.Little? then s else Reverse(s))
  }

  /** Byte swap of an n-byte word. */
  function Bswap(v: nat, n: nat): (r: nat)
    ensures r < WordRange(n)
  {
    FromLittle(Reverse(LittleBytes(v, n)))
  }

  lemma LowByte(b: u8, v: nat)
    ensures (b + 256 * v) % 256 == b && (b + 256 * v) / 256 == v
  {
  }

  lemma DivideTwice(v: nat, b: nat)
    requires b > 0
    ensures v / (256 * b) == v / 256 / b
  {
    var q := v / 256;
    var low := 256 * (q % b) + v % 256;
    assert 256 * (q / b * b) == q / b * (256 * b);
    Layout.DivModUnique(v, 256 * b, q / b, low);
  }

  /** Byte `k` of the little image is digit `k` of the word to the base of 256; the big image is the reverse. */
  lemma {:induction false} DigitsOfWord(v: nat, n: nat, k: nat)
    requires k < n
    ensures Bytes(Little, v, n)[k] == v / WordRange(k) % 256
    ensures Bytes(Big, v, n)[n - 1 - k] == v / WordRange(k) % 256
  {
    if k > 0 {
      DigitsOfWord(v / 256, n - 1, k - 1);
      DivideTwice(v, WordRange(k - 1));
    }
  }

  lemma {:induction false} LittleRoundTrip(s: seq<u8>)
    ensures LittleBytes(FromLittle(s), |s|) == s
  {
    if s != [] {
      LittleRoundTrip(s[1..]);
      LowByte(s[0], FromLittle(s[1..]));
      assert s == [s[0]] + s[1..];
    }
  }

  lemma {:induction false} LittleWord(v: nat, n: nat)
    requires v < WordRange(n)
    ensures FromLittle(LittleBytes(v, n)) == v
  {
    if n > 0 {
      LittleWord(v / 256, n - 1);
    }
  }

  /** The bytes of a word in either order make up the word again. */
  lemma WordRoundTrip(e: Endian, v: nat, n: nat)
    requires v < WordRange(n)
    ensures FromBytes(e, Bytes(e, v, n)) == v
  {
    LittleWord(v, n);
    assert Reverse(Reverse(LittleBytes(v, n))) == LittleBytes(v, n);
  }

  /** Storing bytes into a word and looking at the word's bytes are inverse to each other. */
  lemma BytesRoundTrip(e: Endian, s: seq<u8>)
    ensures Bytes(e, FromBytes(e, s), |s|) == s
  {
    LittleRoundTrip(if e.Little? then s else Reverse(s));
  }

  /** The host image of a swapped word is the image the other byte order has of the word. */
  lemma SwappedImage(host: Endian, device: Endian, v: nat, n: nat)
    requires host != device
    ensures Bytes(host, Bswap(v, n), n) == Bytes(device, v, n)
  {
    LittleRoundTrip(Reverse(LittleBytes(v, n)));
  }

  /** Swapping twice is the identity on words that fit. */
  lemma SwapTwice(v: nat, n: nat)
    requires v < WordRange(n)
    ensures Bswap(Bswap(v, n), n) == v
  {
    LittleRoundTrip(Reverse(LittleBytes(v, n)));
    assert Reverse(Reverse(LittleBytes(v, n))) == LittleBytes(v, n);
    LittleWord(v, n);
  }

  /** `s` with the bytes from offset `off` on replaced by `t`. */
  function Spliced(s: seq<u8>, off: nat, t: seq<u8>): (r: seq<u8>)
    requires off + |t| <= |s|
    ensures |r| == |s|
    ensures forall i :: 0 <= i < |s| ==> r[i] == if off <= i < off + |t| then t[i - off] else s[i]
  {
    s[..off] + t + s[off + |t|..]
  }

  /** The bytes the host finds in memory when a device word is prepared for the bus. */
  function BusImage(host: Endian, device: Endian, v: nat, n: nat): (s: seq<u8>)
    ensures |s| == n
  {
    Bytes(host, if device != host then Bswap(v, n) else v, n)
  }

  /** The word after the host has merged bytes from the bus into it. */
  function Merged(host: Endian, device: Endian, v: nat, n: nat, off: nat, bs: seq<u8>): (r: nat)
    requires off + |bs| <= n
    ensures r < WordRange(n)
  {
    var val := FromBytes(host, Spliced(BusImage(host, device, v, n), off, bs));
    if device != host then Bswap(val, n) else val
  }

  /** The bus sees the word in device byte order, whatever the byte order of the host. */
  lemma BusImageIsDeviceImage(host: Endian, device: Endian, v: nat, n: nat)
    ensures BusImage(host, device, v, n) == Bytes(device, v, n)
  {
    if device != host {
      SwappedImage(host, device, v, n);
    }
  }

  /** Merging replaces exactly the addressed bytes of the device image. */
  lemma MergedImage(host: Endian, device: Endian, v: nat, n: nat, off: nat, bs: seq<u8>)
    requires off + |bs| <= n
    ensures Bytes(device, Merged(host, device, v, n, off, bs), n) == Spliced(Bytes(device, v, n), off, bs)
  {
    BusImageIsDeviceImage(host, device, v, n);
    var raw := Spliced(BusImage(host, device, v, n), off, bs);
    BytesRoundTrip(host, raw);
    if device != host {
      SwappedImage(device, host, FromBytes(host, raw), n);
    }
  }
}
