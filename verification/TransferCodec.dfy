/** The buffer in which a prepared wire transfer is persisted, and its decoding before execution. */
module TransferCodec {
  import opened Text

  // ----- numbers in network byte order -----

  function Pow256(k: nat): nat { if k == 0 then 1 else 256 * Pow256(k - 1) }

  function BigEndian(n: nat, k: nat): (s: seq<byte>)
    ensures |s| == k
  {
    if k == 0 then [] else BigEndian(n / 256, k - 1) + [n % 256]
  }

  function Number(s: seq<byte>): nat {
    if s == [] then 0 else Number(s[..|s| - 1]) * 256 + s[|s| - 1]
  }

  lemma {:induction false} NumberOfBigEndian(n: nat, k: nat)
    requires n < Pow256(k)
    ensures Number(BigEndian(n, k)) == n
  {
    if k > 0 {
      NumberOfBigEndian(n / 256, k - 1);
      var s := BigEndian(n, k);
      assert s[..|s| - 1] == BigEndian(n / 256, k - 1);
    }
  }

  lemma {:induction false} BigEndianOfNumber(s: seq<byte>)
    ensures BigEndian(Number(s), |s|) == s && Number(s) < Pow256(|s|)
  {
    if s != [] {
      BigEndianOfNumber(s[..|s| - 1]);
      assert s == s[..|s| - 1] + [s[|s| - 1]];
    }
  }

  /** The most significant byte comes first. */
  lemma {:induction false} NumberIs(s: seq<byte>)
    requires |s| == 4
    ensures Number(s) == 0x100_0000 * (s[0] as int) + 0x1_0000 * (s[1] as int) + 0x100 * (s[2] as int) + s[3] as int
  {
    var s3, s2, s1 := s[..3], s[..2], s[..1];
    assert s3[..2] == s2 && s2[..1] == s1 && s1[..0] == [];
    assert Number(s1) == s[0] && Number(s2) == Number(s1) * 256 + s[1] && Number(s3) == Number(s2) * 256 + s[2];
  }

  /** The first of two halves counts for the more significant part. */
  lemma {:induction false} NumberOfHalves(s: seq<byte>)
    requires |s| == 8
    ensures Number(s) == Number(s[..4]) * 0x1_0000_0000 + Number(s[4..])
  {
    var s7, s6, s5 := s[..7], s[..6], s[..5];
    assert s7[..6] == s6 && s6[..5] == s5 && s5[..4] == s[..4];
    assert Number(s7) == Number(s6) * 256 + s[6] && Number(s6) == Number(s5) * 256 + s[5];
    assert Number(s5) == Number(s[..4]) * 256 + s[4];
    NumberIs(s[4..]);
  }

  // ----- the record -----

  const HEADER_SIZE: nat := 128
  const MAX_SIZE: nat := 40 * 1024 * 1024

  /** A transfer request; accounts and URLs are strings of non-zero bytes. */
  datatype Request = Request(
    uid: seq<byte>,
    value: nat,
    fraction: nat,
    currency: seq<byte>,
    wtid: seq<byte>,
    account: seq<byte>,
    url: seq<byte>)

  /** What the C types guarantee about a request. */
  predicate Proper(x: Request) {
    && |x.uid| == 64 && |x.currency| == 12 && |x.wtid| == 32
    && x.value < Pow256(8) && x.fraction < Pow256(4)
    && x.currency[0] != 0
    && 0 !in x.account && 0 !in x.url
  }

  function Header(x: Request): seq<byte> {
    x.uid + (BigEndian(x.value, 8) + BigEndian(x.fraction, 4) + x.currency) + x.wtid
    + BigEndian(|x.account| + 1, 4) + BigEndian(|x.url| + 1, 4)
  }

  datatype Encoded = TooLong | Buffer(bytes: seq<byte>)

  predicate Fits(x: Request) {
    |x.account| + 1 < MAX_SIZE && |x.url| + 1 < MAX_SIZE && |x.account| + 1 + |x.url| + 1 + HEADER_SIZE < MAX_SIZE
  }

  function Encode(x: Request): Encoded {
    if !Fits(x) then TooLong else Buffer(Header(x) + (x.account + [0]) + (x.url + [0]))
  }

  /** Where each field of a request is in its buffer. */
  predicate Filled(b: seq<byte>, x: Request) {
    && |b| == 128 + |x.account| + 1 + |x.url| + 1
    && b[..64] == x.uid
    && Number(b[64..72]) == x.value && Number(b[72..76]) == x.fraction && b[76..88] == x.currency
    && b[88..120] == x.wtid
    && Number(b[120..124]) == |x.account| + 1 && Number(b[124..128]) == |x.url| + 1
    && b[128..] == x.account + [0] + x.url + [0]
  }

  lemma {:induction false} FilledExactly(x: Request)
    requires Proper(x) && Encode(x).Buffer?
    ensures Filled(Encode(x).bytes, x)
  {
    var b := Encode(x).bytes;
    assert b == Header(x) + (x.account + [0] + x.url + [0]);
    HeaderFields(x, x.account + [0] + x.url + [0]);
    PowersOf256();
    NumberOfBigEndian(x.value, 8);
    NumberOfBigEndian(x.fraction, 4);
    NumberOfBigEndian(|x.account| + 1, 4);
    NumberOfBigEndian(|x.url| + 1, 4);
  }

  /** Fill one field of the buffer. */
  method Put(buf: array<byte>, offset: nat, field: seq<byte>)
    requires offset + |field| <= buf.Length
    modifies buf
    ensures buf[..offset + |field|] == old(buf[..offset]) + field
  {
    forall i | 0 <= i < |field| {
      buf[offset + i] := field[i];
    }
    assert buf[..offset] == old(buf[..offset]) && buf[offset..offset + |field|] == field;
  }

  /** Prepare a transfer: allocate the buffer and fill in field after field. */
  method PrepareTransfer(x: Request) returns (ok: bool, buf: array<byte>)
    requires Proper(x)
    ensures fresh(buf)
    ensures ok == Encode(x).Buffer? && (ok ==> buf[..] == Encode(x).bytes)
    ensures ok <==> 128 + |x.account| + 1 + |x.url| + 1 < 41_943_040
  {
    var dLen, uLen := |x.account| + 1, |x.url| + 1;
    if dLen >= MAX_SIZE || uLen >= MAX_SIZE || dLen + uLen + HEADER_SIZE >= MAX_SIZE {
      buf := new byte[0];
      return false, buf;
    }
    buf := new byte[HEADER_SIZE + dLen + uLen];
    Put(buf, 0, x.uid);
    Put(buf, 64, BigEndian(x.value, 8) + BigEndian(x.fraction, 4) + x.currency);
    assert buf[..88] == x.uid + (BigEndian(x.value, 8) + BigEndian(x.fraction, 4) + x.currency);
    Put(buf, 88, x.wtid + BigEndian(dLen, 4) + BigEndian(uLen, 4));
    assert buf[..HEADER_SIZE] == Header(x);
    Put(buf, HEADER_SIZE, x.account + [0]);
    assert buf[..HEADER_SIZE + dLen] == Header(x) + (x.account + [0]);
    Put(buf, HEADER_SIZE + dLen, x.url + [0]);
    assert buf[..HEADER_SIZE + dLen + uLen] == Header(x) + (x.account + [0]) + (x.url + [0]);
    ok := true;
  }

  // ----- decoding -----

  /** The bytes of a C string: everything before the first zero. */
  function CString(s: seq<byte>): (r: seq<byte>)
    ensures 0 !in r && |r| <= |s|
  {
    if s == [] || s[0] == 0 then [] else [s[0]] + CString(s[1..])
  }

  /** Fatal: the code reads outside of the buffer, or aborts on an amount without currency. */
  datatype Decoded = Refused | Fatal | Decoded(request: Request)

  function Decode(buf: seq<byte>): Decoded {
    if |buf| < HEADER_SIZE then Refused
    else
      var dLen, uLen := Number(buf[120..124]), Number(buf[124..128]);
      if HEADER_SIZE + dLen + uLen != |buf| then Refused
      else if dLen == 0 then Fatal
      else if buf[HEADER_SIZE + dLen - 1] != 0 then Refused
      else if uLen == 0 then Fatal
      else if buf[|buf| - 1] != 0 then Refused
      else if buf[76] == 0 then Fatal
      else Decoded(Request(
        buf[..64], Number(buf[64..72]), Number(buf[72..76]), buf[76..88], buf[88..120],
        CString(buf[HEADER_SIZE..HEADER_SIZE + dLen]), CString(buf[HEADER_SIZE + dLen..])))
  }

  /** The two lengths add up to the size of the buffer, and are where the header says. */
  predicate Sized(buf: seq<byte>) {
    |buf| >= 128 && 128 + Number(buf[120..124]) + Number(buf[124..128]) == |buf|
  }

  /**
   * Which buffers are decoded: those of the right size, with two terminated strings and a currency.
   * Others are refused, except that an empty string region, or a missing currency after two proper
   * strings, is fatal.
   */
  lemma {:induction false} DecodesExactly(buf: seq<byte>)
    ensures !Sized(buf) ==> Decode(buf).Refused?
    ensures Sized(buf) ==>
      var account, url := Number(buf[120..124]), Number(buf[124..128]);
      var first, second := account > 0 && buf[127 + account] == 0, url > 0 && buf[|buf| - 1] == 0;
      && (Decode(buf).Decoded? <==> first && second && buf[76] != 0)
      && (Decode(buf).Fatal? <==> account == 0 || (first && (url == 0 || (second && buf[76] == 0))))
  {
  }

  lemma {:induction false} CStringOfTerminated(s: seq<byte>)
    requires 0 !in s
    ensures CString(s + [0]) == s
  {
    if s != [] {
      assert (s + [0])[1..] == s[1..] + [0];
      CStringOfTerminated(s[1..]);
    }
  }

  lemma {:induction false} HeaderFields(x: Request, rest: seq<byte>)
    requires Proper(x)
    ensures var b := Header(x) + rest;
      && |Header(x)| == HEADER_SIZE && b[HEADER_SIZE..] == rest
      && b[..64] == x.uid && b[64..72] == BigEndian(x.value, 8) && b[72..76] == BigEndian(x.fraction, 4)
      && b[76..88] == x.currency && b[88..120] == x.wtid
      && b[120..124] == BigEndian(|x.account| + 1, 4) && b[124..128] == BigEndian(|x.url| + 1, 4)
  {
  }

  lemma {:induction false} PowersOf256()
    ensures Pow256(4) == 0x1_0000_0000
  {
    assert Pow256(1) == 256;
    assert Pow256(2) == 0x1_0000;
    assert Pow256(3) == 0x100_0000;
  }

  /** What is decoded from a prepared buffer is the transfer that was prepared. */
  lemma {:induction false} DecodeEncode(x: Request)
    requires Proper(x) && Encode(x).Buffer?
    ensures Decode(Encode(x).bytes) == Decoded(x)
  {
    Layout(x);
    var b := Encode(x).bytes;
    HeaderFields(x, b[HEADER_SIZE..]);
    assert b == Header(x) + b[HEADER_SIZE..];
    NumberOfBigEndian(x.value, 8);
    NumberOfBigEndian(x.fraction, 4);
    assert b[76] == b[76..88][0];
    CStringOfTerminated(x.account);
    CStringOfTerminated(x.url);
  }

  /** Where the strings of a prepared buffer are. */
  lemma {:induction false} Layout(x: Request)
    requires Proper(x) && Encode(x).Buffer?
    ensures var b, dLen := Encode(x).bytes, |x.account| + 1;
      && |b| == HEADER_SIZE + dLen + |x.url| + 1 && b[..HEADER_SIZE] == Header(x)
      && Number(b[120..124]) == dLen && Number(b[124..128]) == |x.url| + 1
      && b[HEADER_SIZE..HEADER_SIZE + dLen] == x.account + [0] && b[HEADER_SIZE + dLen..] == x.url + [0]
  {
    var account, url := x.account + [0], x.url + [0];
    assert Encode(x).bytes == Header(x) + (account + url);
    HeaderFields(x, account + url);
    PowersOf256();
    NumberOfBigEndian(|account|, 4);
    NumberOfBigEndian(|url|, 4);
  }

  /** Different transfers have different buffers. */
  lemma {:induction false} EncodeInjective(x: Request, y: Request)
    requires Proper(x) && Proper(y) && Encode(x).Buffer? && Encode(x) == Encode(y)
    ensures x == y
  {
    DecodeEncode(x);
    DecodeEncode(y);
  }

  /** The two string regions of a buffer. */
  predicate NoInnerZero(buf: seq<byte>)
    requires Decode(buf).Decoded?
  {
    var dLen := Number(buf[120..124]);
    0 !in buf[HEADER_SIZE..HEADER_SIZE + dLen - 1] && 0 !in buf[HEADER_SIZE + dLen..|buf| - 1]
  }

  lemma {:induction false} CStringLength(s: seq<byte>)
    requires s != [] && s[|s| - 1] == 0
    ensures CString(s) + [0] == s <==> 0 !in s[..|s| - 1]
  {
    if s[0] != 0 {
      CStringLength(s[1..]);
      assert s == [s[0]] + s[1..];
      assert s[..|s| - 1] == [s[0]] + s[1..][..|s| - 2];
      assert CString(s) + [0] == [s[0]] + (CString(s[1..]) + [0]);
    } else if |s| > 1 {
      assert s[0] in s[..|s| - 1];
    }
  }

  lemma {:induction false} HeaderOf(buf: seq<byte>)
    requires Decode(buf).Decoded?
    ensures var x := Decode(buf).request;
      Proper(x) && (BigEndian(|x.account| + 1, 4) == buf[120..124] && BigEndian(|x.url| + 1, 4) == buf[124..128]
        ==> Header(x) == buf[..HEADER_SIZE])
  {
    var x := Decode(buf).request;
    BigEndianOfNumber(buf[64..72]);
    BigEndianOfNumber(buf[72..76]);
    assert x.currency[0] == buf[76];
    HeaderPieces(buf);
  }

  lemma {:induction false} HeaderPieces(buf: seq<byte>)
    requires |buf| >= HEADER_SIZE
    ensures buf[..HEADER_SIZE] == buf[..64] + (buf[64..72] + buf[72..76] + buf[76..88])
      + buf[88..120] + buf[120..124] + buf[124..128]
  {
    assert buf[64..72] + buf[72..76] + buf[76..88] == buf[64..88];
    assert buf[..64] + buf[64..88] == buf[..88];
    assert buf[..88] + buf[88..120] == buf[..120];
    assert buf[..120] + buf[120..124] == buf[..124];
    assert buf[..124] + buf[124..128] == buf[..128];
  }

  /**
   * A buffer that decodes is the prepared form of what it decodes to exactly when it is not too
   * long and neither string contains a zero before its terminator.
   */
  lemma {:induction false} EncodeDecodeExactly(buf: seq<byte>)
    requires Decode(buf).Decoded?
    ensures Encode(Decode(buf).request) == Buffer(buf) <==> |buf| < MAX_SIZE && NoInnerZero(buf)
  {
    HeaderOf(buf);
    if Encode(Decode(buf).request) == Buffer(buf) {
      PreparedHasNoInnerZero(Decode(buf).request);
    } else if |buf| < MAX_SIZE && NoInnerZero(buf) {
      NoInnerZeroIsPrepared(buf);
    }
  }

  lemma {:induction false} PreparedHasNoInnerZero(x: Request)
    requires Proper(x) && Encode(x).Buffer?
    ensures var buf := Encode(x).bytes; |buf| < MAX_SIZE && Decode(buf).Decoded? && NoInnerZero(buf)
  {
    DecodeEncode(x);
    Layout(x);
    var buf := Encode(x).bytes;
    var mid := HEADER_SIZE + |x.account| + 1;
    NoZeroBeforeEnd(buf, HEADER_SIZE, mid, x.account);
    assert buf[mid..|buf|] == buf[mid..];
    NoZeroBeforeEnd(buf, mid, |buf|, x.url);
  }

  lemma {:induction false} NoZeroBeforeEnd(buf: seq<byte>, lo: nat, hi: nat, text: seq<byte>)
    requires lo < hi <= |buf| && buf[lo..hi] == text + [0] && 0 !in text
    ensures 0 !in buf[lo..hi - 1]
  {
    assert |text| == hi - lo - 1;
    assert buf[lo..hi - 1] == buf[lo..hi][..hi - lo - 1] == text;
  }

  lemma {:induction false} Terminated(buf: seq<byte>, lo: nat, hi: nat)
    requires lo < hi <= |buf| && buf[hi - 1] == 0 && 0 !in buf[lo..hi - 1]
    ensures CString(buf[lo..hi]) + [0] == buf[lo..hi] && |CString(buf[lo..hi])| + 1 == hi - lo
  {
    assert buf[lo..hi][..hi - lo - 1] == buf[lo..hi - 1];
    CStringLength(buf[lo..hi]);
    assert |CString(buf[lo..hi]) + [0]| == hi - lo;
  }

  lemma {:induction false} StringRegions(buf: seq<byte>)
    requires Decode(buf).Decoded? && NoInnerZero(buf)
    ensures var x := Decode(buf).request;
      && buf[HEADER_SIZE..] == (x.account + [0]) + (x.url + [0])
      && Number(buf[120..124]) == |x.account| + 1 && Number(buf[124..128]) == |x.url| + 1
  {
    var mid := HEADER_SIZE + Number(buf[120..124]);
    Terminated(buf, HEADER_SIZE, mid);
    assert buf[mid..|buf|] == buf[mid..];
    Terminated(buf, mid, |buf|);
    assert buf[HEADER_SIZE..] == buf[HEADER_SIZE..mid] + buf[mid..];
  }

  lemma {:induction false} NoInnerZeroIsPrepared(buf: seq<byte>)
    requires Decode(buf).Decoded? && |buf| < MAX_SIZE && NoInnerZero(buf)
    ensures Encode(Decode(buf).request) == Buffer(buf)
  {
    var x := Decode(buf).request;
    StringRegions(buf);
    HeaderOf(buf);
    BigEndianOfNumber(buf[120..124]);
    BigEndianOfNumber(buf[124..128]);
    PutTogether(buf, x.account + [0], x.url + [0]);
  }

  lemma {:induction false} PutTogether(buf: seq<byte>, account: seq<byte>, url: seq<byte>)
    requires |buf| >= HEADER_SIZE && buf[HEADER_SIZE..] == account + url
    ensures buf[..HEADER_SIZE] + account + url == buf
  {
    assert buf == buf[..HEADER_SIZE] + buf[HEADER_SIZE..];
  }
}
