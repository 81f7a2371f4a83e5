/** The append-only journal: a fixed-width codec in the byte order of the host, the file layout, and recovery. */
module EventLogs {
  import opened Types

  const RECORD_SIZE := 40
  const VERSION := 1
  const MAGIC: seq<U8> := [79, 66, 69, 76] // OBEL

  datatype Host = LittleEndian | BigEndian

  datatype ReadError = BadMagic | BadVersion

  datatype ReadResult = Events(events: seq<Command>) | Failed(error: ReadError)

  // ---- Integers as bytes ---------------------------------------------------------------------------------------

  function Pow256(n: nat): (p: nat)
    ensures p > 0
  {
    if n == 0 then 1 else 256 * Pow256(n - 1)
  }

  function LowFirst(x: nat, n: nat): (bytes: seq<U8>)
    ensures |bytes| == n
  {
    if n == 0 then [] else [x % 256] + LowFirst(x / 256, n - 1)
  }

  function Value(bytes: seq<U8>): nat {
    if bytes == [] then 0 else bytes[0] + 256 * Value(bytes[1..])
  }

  function Reverse(bytes: seq<U8>): (r: seq<U8>)
    ensures |r| == |bytes|
  {
    if bytes == [] then [] else Reverse(bytes[1..]) + [bytes[0]]
  }

  function ToHost(host: Host, x: nat, n: nat): (bytes: seq<U8>)
    ensures |bytes| == n
  {
    if host == LittleEndian then LowFirst(x, n) else Reverse(LowFirst(x, n))
  }

  function FromHost(host: Host, bytes: seq<U8>): nat {
    if host == LittleEndian then Value(bytes) else Value(Reverse(bytes))
  }

  lemma {:induction false} ValueLowFirst(x: nat, n: nat)
    requires x < Pow256(n)
    ensures Value(LowFirst(x, n)) == x
    decreases n
  {
    if n > 0 {
      ValueLowFirst(x / 256, n - 1);
    }
  }

  lemma {:induction false} LowFirstValue(bytes: seq<U8>)
    ensures LowFirst(Value(bytes), |bytes|) == bytes && Value(bytes) < Pow256(|bytes|)
    decreases |bytes|
  {
    if bytes != [] {
      LowFirstValue(bytes[1..]);
      assert Value(bytes) / 256 == Value(bytes[1..]);
    }
  }

  lemma {:induction false} ReverseSnoc(bytes: seq<U8>, b: U8)
    ensures Reverse(bytes + [b]) == [b] + Reverse(bytes)
    decreases |bytes|
  {
    if bytes != [] {
      ReverseSnoc(bytes[1..], b);
      assert (bytes + [b])[1..] == bytes[1..] + [b];
    }
  }

  lemma {:induction false} ReverseTwice(bytes: seq<U8>)
    ensures Reverse(Reverse(bytes)) == bytes
    decreases |bytes|
  {
    if bytes != [] {
      ReverseTwice(bytes[1..]);
      ReverseSnoc(Reverse(bytes[1..]), bytes[0]);
    }
  }

  lemma HostRoundTrip(host: Host, x: nat, n: nat)
    requires x < Pow256(n)
    ensures FromHost(host, ToHost(host, x, n)) == x
  {
    ValueLowFirst(x, n);
    ReverseTwice(LowFirst(x, n));
  }

  lemma HostRoundTripBack(host: Host, bytes: seq<U8>)
    ensures FromHost(host, bytes) < Pow256(|bytes|)
    ensures ToHost(host, FromHost(host, bytes), |bytes|) == bytes
  {
    LowFirstValue(bytes);
    LowFirstValue(Reverse(bytes));
    ReverseTwice(bytes);
  }

  lemma WordSizes()
    ensures Pow256(4) == TWO_32 && Pow256(8) == TWO_64
  {
    assert Pow256(4) == 256 * (256 * (256 * 256));
    assert Pow256(8) == 256 * (256 * (256 * (256 * Pow256(4))));
  }

  /** Two's complement. */
  function ToWord(x: I64): U64 {
    if x < 0 then x + TWO_64 else x
  }

  function FromWord(u: U64): I64 {
    if u >= TWO_63 then u - TWO_64 else u
  }

  // ---- Records -------------------------------------------------------------------------------------------------

  /** The 40-byte record: three enumerations, a zero byte, a 32-bit and four 64-bit fields. */
  function Encoded(host: Host, c: Command): (bytes: seq<U8>)
    ensures |bytes| == RECORD_SIZE
  {
    [c.kind, c.orderType, c.side, 0] + ToHost(host, c.trader, 4) + ToHost(host, c.id, 8)
    + ToHost(host, ToWord(c.price), 8) + ToHost(host, c.quantity, 8) + ToHost(host, ToWord(c.triggerPrice), 8)
  }

  function Decoded(host: Host, bytes: seq<U8>): Command
    requires |bytes| == RECORD_SIZE
  {
    FieldsFit(host, bytes);
    Command(bytes[0], bytes[1], FromHost(host, bytes[8..16]), FromHost(host, bytes[4..8]), bytes[2],
            FromWord(FromHost(host, bytes[16..24])), FromHost(host, bytes[24..32]),
            FromWord(FromHost(host, bytes[32..40])))
  }

  // ---- The layout, byte by byte --------------------------------------------------------------------------------

  /** The number that the four bytes from `o` on stand for on a host. */
  function Word4(host: Host, bytes: seq<U8>, o: nat): nat
    requires o + 4 <= |bytes|
  {
    if host == LittleEndian then Quad(bytes[o], bytes[o + 1], bytes[o + 2], bytes[o + 3])
    else Quad(bytes[o + 3], bytes[o + 2], bytes[o + 1], bytes[o])
  }

  function Quad(a: nat, b: nat, c: nat, d: nat): nat {
    a + 0x100 * b + 0x1_0000 * c + 0x100_0000 * d
  }

  /** The number that the eight bytes from `o` on stand for on a host. */
  function Word8(host: Host, bytes: seq<U8>, o: nat): nat
    requires o + 8 <= |bytes|
  {
    if host == LittleEndian then Word4(host, bytes, o) + 0x1_0000_0000 * Word4(host, bytes, o + 4)
    else Word4(host, bytes, o + 4) + 0x1_0000_0000 * Word4(host, bytes, o)
  }

  lemma ValueOfFour(bytes: seq<U8>)
    requires |bytes| == 4
    ensures Value(bytes) == Quad(bytes[0], bytes[1], bytes[2], bytes[3])
  {
    assert bytes[1..][1..] == bytes[2..] && bytes[2..][1..] == bytes[3..] && bytes[3..][1..] == [];
    assert Value(bytes[3..]) == bytes[3];
    assert Value(bytes[2..]) == bytes[2] + 256 * Value(bytes[3..]);
    assert Value(bytes[1..]) == bytes[1] + 256 * Value(bytes[2..]);
  }

  lemma {:induction false} ValueConcat(xs: seq<U8>, ys: seq<U8>)
    ensures Value(xs + ys) == Value(xs) + Pow256(|xs|) * Value(ys)
    decreases |xs|
  {
    if xs == [] {
      assert xs + ys == ys;
    } else {
      ConcatTail(xs, ys);
      ValueConcat(xs[1..], ys);
      Scale(Pow256(|xs| - 1), Value(ys));
    }
  }

  lemma Scale(p: nat, v: nat)
    ensures 256 * (p * v) == 256 * p * v
  {
  }

  lemma ReverseOfFour(bytes: seq<U8>)
    requires |bytes| == 4
    ensures Reverse(bytes) == [bytes[3], bytes[2], bytes[1], bytes[0]]
  {
    assert bytes[1..][1..] == bytes[2..] && bytes[2..][1..] == bytes[3..] && bytes[3..][1..] == [];
    assert Reverse(bytes[3..]) == [] + [bytes[3]] == [bytes[3]];
    assert Reverse(bytes[2..]) == [bytes[3]] + [bytes[2]] == [bytes[3], bytes[2]];
    assert Reverse(bytes[1..]) == [bytes[3], bytes[2]] + [bytes[1]] == [bytes[3], bytes[2], bytes[1]];
  }

  lemma {:induction false} ReverseConcat(xs: seq<U8>, ys: seq<U8>)
    ensures Reverse(xs + ys) == Reverse(ys) + Reverse(xs)
    decreases |xs|
  {
    if xs == [] {
      assert xs + ys == ys && Reverse(ys) + [] == Reverse(ys);
    } else {
      ConcatTail(xs, ys);
      ReverseConcat(xs[1..], ys);
      Regroup(Reverse(ys), Reverse(xs[1..]), [xs[0]]);
    }
  }

  lemma FourBytes(host: Host, bytes: seq<U8>, o: nat)
    requires o + 4 <= |bytes|
    ensures FromHost(host, bytes[o..o + 4]) == Word4(host, bytes, o)
  {
    var four := bytes[o..o + 4];
    ReverseOfFour(four);
    ValueOfFour(four);
    ValueOfFour(Reverse(four));
  }

  lemma EightBytes(host: Host, bytes: seq<U8>, o: nat)
    requires o + 8 <= |bytes|
    ensures FromHost(host, bytes[o..o + 8]) == Word8(host, bytes, o)
  {
    hide Value, Reverse, Word4;
    var low, high := bytes[o..o + 4], bytes[o + 4..o + 8];
    assert bytes[o..o + 8] == low + high;
    FourBytes(host, bytes, o);
    FourBytes(host, bytes, o + 4);
    WordSizes();
    if host == LittleEndian {
      ValueConcat(low, high);
    } else {
      ReverseConcat(low, high);
      ValueConcat(Reverse(high), Reverse(low));
    }
  }

  /** The record of a command stands at `o`: kind, order type, side and a zero byte, then trader, id, price, quantity
      and trigger price at offsets 4, 8, 16, 24 and 32, negative prices in two's complement. */
  predicate RecordAt(host: Host, bytes: seq<U8>, o: nat, c: Command)
    requires o + 40 <= |bytes|
  {
    && FieldsAt(host, bytes, o, c)
    && bytes[o + 3] == 0
  }

  predicate FieldsAt(host: Host, bytes: seq<U8>, o: nat, c: Command)
    requires o + 40 <= |bytes|
  {
    && bytes[o] == c.kind && bytes[o + 1] == c.orderType && bytes[o + 2] == c.side
    && Word4(host, bytes, o + 4) == c.trader
    && Word8(host, bytes, o + 8) == c.id
    && Word8(host, bytes, o + 16) == (if c.price < 0 then c.price + 0x1_0000_0000_0000_0000 else c.price)
    && Word8(host, bytes, o + 24) == c.quantity
    && Word8(host, bytes, o + 32)
         == (if c.triggerPrice < 0 then c.triggerPrice + 0x1_0000_0000_0000_0000 else c.triggerPrice)
  }

  /** Every record has this layout. */
  lemma LayoutTerms(host: Host, c: Command)
    ensures RecordAt(host, Encoded(host, c), 0, c)
  {
    hide FromHost, ToHost, Word4, Word8;
    WordSizes();
    var bytes := Encoded(host, c);
    RecordParts(host, c);
    HostRoundTrip(host, c.trader, 4);
    HostRoundTrip(host, c.id, 8);
    HostRoundTrip(host, ToWord(c.price), 8);
    HostRoundTrip(host, c.quantity, 8);
    HostRoundTrip(host, ToWord(c.triggerPrice), 8);
    FourBytes(host, bytes, 4);
    EightBytes(host, bytes, 8);
    EightBytes(host, bytes, 16);
    EightBytes(host, bytes, 24);
    EightBytes(host, bytes, 32);
  }

  lemma RecordParts(host: Host, c: Command)
    ensures var bytes := Encoded(host, c);
      && bytes[0] == c.kind && bytes[1] == c.orderType && bytes[2] == c.side && bytes[3] == 0
      && bytes[4..8] == ToHost(host, c.trader, 4)
      && bytes[8..16] == ToHost(host, c.id, 8)
      && bytes[16..24] == ToHost(host, ToWord(c.price), 8)
      && bytes[24..32] == ToHost(host, c.quantity, 8)
      && bytes[32..40] == ToHost(host, ToWord(c.triggerPrice), 8)
  {
    hide ToHost;
  }

  /** The command read from 40 bytes is the one whose fields stand in them. */
  lemma DecodedTerms(host: Host, bytes: seq<U8>)
    requires |bytes| == 40
    ensures FieldsAt(host, bytes, 0, Decoded(host, bytes))
  {
    hide FromHost, Word4, Word8;
    FieldsFit(host, bytes);
    FourBytes(host, bytes, 4);
    EightBytes(host, bytes, 8);
    EightBytes(host, bytes, 16);
    EightBytes(host, bytes, 24);
    EightBytes(host, bytes, 32);
  }

  /** The header is the letters OBEL and the number 1. */
  lemma HeaderTerms(host: Host)
    ensures Header(host) == [0x4F, 0x42, 0x45, 0x4C] + if host == LittleEndian then [1, 0, 0, 0] else [0, 0, 0, 1]
  {
    var low: seq<U8> := [1, 0, 0, 0];
    assert LowFirst(VERSION, 4) == low;
    ReverseOfFour(low);
  }

  lemma {:induction false} RecordsAt(host: Host, body: seq<U8>, n: nat)
    ensures |Records(host, body)| == |body| / 40
    ensures n < |body| / 40 ==>
              40 * n + 40 <= |body| && Records(host, body)[n] == Decoded(host, body[40 * n..40 * n + 40])
    decreases |body|
  {
    hide Decoded;
    if |body| >= 40 {
      var rest := body[40..];
      RecordsAt(host, rest, if n == 0 then 0 else n - 1);
      assert |body| / 40 == |rest| / 40 + 1;
      if 0 < n < |body| / 40 {
        assert rest[40 * (n - 1)..40 * (n - 1) + 40] == body[40 * n..40 * n + 40];
      }
    }
  }

  /** What reading a file gives. Without the letters OBEL in its first eight bytes the magic is bad; without the number
      1 behind them, in the byte order of the host, the version is; otherwise there is one command for every 40 bytes
      that follow, the one whose fields stand there. */
  lemma ReadTerms(host: Host, file: seq<U8>)
    ensures var r := ReadSpec(host, file);
      && (r == Failed(BadMagic) <==> |file| < 8 || file[..4] != [0x4F, 0x42, 0x45, 0x4C])
      && (r == Failed(BadVersion)
          <==> |file| >= 8 && file[..4] == [0x4F, 0x42, 0x45, 0x4C] && Word4(host, file, 4) != 1)
      && (r.Events? ==>
            && |file| >= 8 && |r.events| == (|file| - 8) / 40
            && forall n :: 0 <= n < |r.events| ==> FieldsOf(host, file, n, r.events[n]))
  {
    hide FromHost, Records, Word4, Word8, Decoded, FieldsOf;
    if |file| >= 8 {
      FourBytes(host, file, 4);
      RecordsAt(host, file[8..], 0);
      EventsTerms(host, file);
    }
  }

  /** The fields of record number `n` of a file, behind its eight-byte header, are those of a command. */
  predicate FieldsOf(host: Host, file: seq<U8>, n: nat, c: Command) {
    8 + 40 * n + 40 <= |file| && FieldsAt(host, file, 8 + 40 * n, c)
  }

  lemma EventsTerms(host: Host, file: seq<U8>)
    requires |file| >= 8
    ensures var events := Records(host, file[8..]);
      forall n :: 0 <= n < |events| ==> FieldsOf(host, file, n, events[n])
  {
    hide Records, FieldsOf;
    forall n | 0 <= n < |Records(host, file[8..])|
      ensures FieldsOf(host, file, n, Records(host, file[8..])[n])
    {
      EventTerms(host, file, n);
    }
  }

  lemma EventTerms(host: Host, file: seq<U8>, n: nat)
    requires |file| >= 8 && n < |Records(host, file[8..])|
    ensures FieldsOf(host, file, n, Records(host, file[8..])[n])
  {
    hide Records, Decoded, FieldsAt;
    var body := file[8..];
    RecordsAt(host, body, n);
    var record := body[40 * n..40 * n + 40];
    assert record == file[8 + 40 * n..8 + 40 * n + 40];
    DecodedTerms(host, record);
    FieldsShift(host, file, 8 + 40 * n, record, Records(host, body)[n]);
  }

  lemma FieldsShift(host: Host, file: seq<U8>, o: nat, record: seq<U8>, c: Command)
    requires o + 40 <= |file| && record == file[o..o + 40]
    ensures FieldsAt(host, file, o, c) <==> FieldsAt(host, record, 0, c)
  {
    assert forall i :: 0 <= i < 40 ==> record[i] == file[o + i];
  }

  lemma RecordShift(host: Host, file: seq<U8>, o: nat, record: seq<U8>, c: Command)
    requires o + 40 <= |file| && record == file[o..o + 40] && RecordAt(host, record, 0, c)
    ensures RecordAt(host, file, o, c)
  {
    hide FieldsAt;
    FieldsShift(host, file, o, record, c);
    assert record[3] == file[o + 3];
  }

  /** What a journal records, command by command: everything but kind 2. */
  lemma {:induction false} JournalledTerms(cs: seq<Command>, c: Command)
    ensures Journalled([]) == []
    ensures Journalled(cs + [c]) == if c.kind == 2 then Journalled(cs) else Journalled(cs) + [c]
    decreases |cs|
  {
    if cs == [] {
      assert cs + [c] == [c] && [c][1..] == [];
    } else {
      ConcatTail(cs, [c]);
      JournalledTerms(cs[1..], c);
      var first := if cs[0].kind == SHUTDOWN then [] else [cs[0]];
      Regroup(first, Journalled(cs[1..]), [c]);
    }
  }

  lemma FieldsFit(host: Host, bytes: seq<U8>)
    requires |bytes| == RECORD_SIZE
    ensures FromHost(host, bytes[4..8]) < TWO_32
    ensures FromHost(host, bytes[8..16]) < TWO_64 && FromHost(host, bytes[16..24]) < TWO_64
    ensures FromHost(host, bytes[24..32]) < TWO_64 && FromHost(host, bytes[32..40]) < TWO_64
  {
    WordSizes();
    HostRoundTripBack(host, bytes[4..8]);
    HostRoundTripBack(host, bytes[8..16]);
    HostRoundTripBack(host, bytes[16..24]);
    HostRoundTripBack(host, bytes[24..32]);
    HostRoundTripBack(host, bytes[32..40]);
  }

  /** Every command survives its record. */
  lemma DecodeEncode(host: Host, c: Command)
    ensures Decoded(host, Encoded(host, c)) == c
  {
    hide FromHost, ToHost;
    WordSizes();
    var bytes := Encoded(host, c);
    assert bytes[4..8] == ToHost(host, c.trader, 4);
    assert bytes[8..16] == ToHost(host, c.id, 8);
    assert bytes[16..24] == ToHost(host, ToWord(c.price), 8);
    assert bytes[24..32] == ToHost(host, c.quantity, 8);
    assert bytes[32..40] == ToHost(host, ToWord(c.triggerPrice), 8);
    HostRoundTrip(host, c.trader, 4);
    HostRoundTrip(host, c.id, 8);
    HostRoundTrip(host, ToWord(c.price), 8);
    HostRoundTrip(host, c.quantity, 8);
    HostRoundTrip(host, ToWord(c.triggerPrice), 8);
  }

  /** A record is the encoding of what it decodes to exactly when its padding byte is zero. */
  lemma EncodeDecode(host: Host, bytes: seq<U8>)
    requires |bytes| == RECORD_SIZE
    ensures Encoded(host, Decoded(host, bytes)) == bytes <==> bytes[3] == 0
  {
    hide FromHost, ToHost, FromWord, ToWord;
    FieldsFit(host, bytes);
    HostRoundTripBack(host, bytes[4..8]);
    HostRoundTripBack(host, bytes[8..16]);
    HostRoundTripBack(host, bytes[16..24]);
    HostRoundTripBack(host, bytes[24..32]);
    HostRoundTripBack(host, bytes[32..40]);
    WordRoundTrip(FromHost(host, bytes[16..24]));
    WordRoundTrip(FromHost(host, bytes[32..40]));
    Glue(bytes);
  }

  lemma WordRoundTrip(u: U64)
    ensures ToWord(FromWord(u)) == u
  {
  }

  lemma Glue(bytes: seq<U8>)
    requires |bytes| == RECORD_SIZE
    ensures [bytes[0], bytes[1], bytes[2], 0] + bytes[4..8] + bytes[8..16] + bytes[16..24] + bytes[24..32]
            + bytes[32..40]
         == bytes[3 := 0]
    ensures bytes[3 := 0] == bytes <==> bytes[3] == 0
  {
  }

  /** Copies bytes into a buffer. */
  method CopyIn(buf: array<U8>, offset: nat, bytes: seq<U8>)
    requires offset + |bytes| <= buf.Length
    modifies buf
    ensures buf[..] == old(buf[..offset]) + bytes + old(buf[offset + |bytes|..])
  {
    var i := 0;
    while i < |bytes|
      invariant i <= |bytes|
      invariant buf[..offset] == old(buf[..offset])
      invariant buf[offset..offset + i] == bytes[..i]
      invariant buf[offset + |bytes|..] == old(buf[offset + |bytes|..])
    {
      buf[offset + i] := bytes[i];
      i := i + 1;
    }
  }

  /** Fills a buffer with the record of a command. */
  method Encode(host: Host, c: Command, buf: array<U8>)
    requires buf.Length == RECORD_SIZE
    modifies buf
    ensures buf[..] == Encoded(host, c)
    ensures buf[0] == c.kind && buf[1] == c.orderType && buf[2] == c.side && buf[3] == 0
    ensures Word4(host, buf[..], 4) == c.trader && Word8(host, buf[..], 8) == c.id
    ensures Word8(host, buf[..], 16) == (if c.price < 0 then c.price + 0x1_0000_0000_0000_0000 else c.price)
    ensures Word8(host, buf[..], 24) == c.quantity
    ensures Word8(host, buf[..], 32)
         == (if c.triggerPrice < 0 then c.triggerPrice + 0x1_0000_0000_0000_0000 else c.triggerPrice)
  {
    hide Encoded, Word4, Word8;
    WriteFields(host, c, buf);
    LayoutTerms(host, c);
    assert forall k :: 0 <= k < 4 ==> buf[k] == buf[..][k];
  }

  /** The writes, field by field. */
  method WriteFields(host: Host, c: Command, buf: array<U8>)
    requires buf.Length == RECORD_SIZE
    modifies buf
    ensures buf[..] == Encoded(host, c)
  {
    var i := 0;
    while i < buf.Length
      invariant i <= buf.Length
      invariant forall k :: 0 <= k < i ==> buf[k] == 0
    {
      buf[i] := 0;
      i := i + 1;
    }
    buf[0], buf[1], buf[2] := c.kind, c.orderType, c.side;
    ghost var head: seq<U8> := [c.kind, c.orderType, c.side, 0];
    assert buf[..4] == head;
    CopyIn(buf, 4, ToHost(host, c.trader, 4));
    assert buf[..8] == head + ToHost(host, c.trader, 4);
    CopyIn(buf, 8, ToHost(host, c.id, 8));
    assert buf[..16] == head + ToHost(host, c.trader, 4) + ToHost(host, c.id, 8);
    CopyIn(buf, 16, ToHost(host, ToWord(c.price), 8));
    assert buf[..24] == head + ToHost(host, c.trader, 4) + ToHost(host, c.id, 8) + ToHost(host, ToWord(c.price), 8);
    CopyIn(buf, 24, ToHost(host, c.quantity, 8));
    CopyIn(buf, 32, ToHost(host, ToWord(c.triggerPrice), 8));
  }

  // ---- Files ---------------------------------------------------------------------------------------------------

  function Header(host: Host): (bytes: seq<U8>)
    ensures |bytes| == 8
  {
    MAGIC + ToHost(host, VERSION, 4)
  }

  /** The records of the commands that are journalled: all but the shutdown sentinel. */
  function Body(host: Host, cs: seq<Command>): seq<U8> {
    if cs == [] then []
    else (if cs[0].kind == SHUTDOWN then [] else Encoded(host, cs[0])) + Body(host, cs[1..])
  }

  lemma {:induction false} BodySnoc(host: Host, cs: seq<Command>, c: Command)
    ensures Body(host, cs + [c]) == Body(host, cs) + Body(host, [c])
    decreases |cs|
  {
    hide Encoded;
    assert [c][1..] == [];
    if cs == [] {
      assert [] + [c] == [c];
    } else {
      BodySnoc(host, cs[1..], c);
      assert (cs + [c])[1..] == cs[1..] + [c];
    }
  }

  function Journalled(cs: seq<Command>): seq<Command> {
    if cs == [] then []
    else (if cs[0].kind == SHUTDOWN then [] else [cs[0]]) + Journalled(cs[1..])
  }

  function Records(host: Host, body: seq<U8>): seq<Command>
    decreases |body|
  {
    if |body| < RECORD_SIZE then [] else [Decoded(host, body[..RECORD_SIZE])] + Records(host, body[RECORD_SIZE..])
  }

  function ReadSpec(host: Host, file: seq<U8>): ReadResult {
    if |file| < 8 || file[..4] != MAGIC then Failed(BadMagic)
    else if FromHost(host, file[4..8]) != VERSION then Failed(BadVersion)
    else Events(Records(host, file[8..]))
  }

  lemma RecordsStep(host: Host, file: seq<U8>, pos: nat, events: seq<Command>)
    requires pos + RECORD_SIZE <= |file|
    ensures events + Records(host, file[pos..])
         == (events + [Decoded(host, file[pos..pos + RECORD_SIZE])]) + Records(host, file[pos + RECORD_SIZE..])
  {
    assert file[pos..][..RECORD_SIZE] == file[pos..pos + RECORD_SIZE];
    assert file[pos..][RECORD_SIZE..] == file[pos + RECORD_SIZE..];
  }

  /** Reads complete records; a torn last record is dropped. */
  method ReadEventLog(host: Host, file: seq<U8>) returns (r: ReadResult)
    ensures r == ReadSpec(host, file)
  {
    hide Decoded;
    if |file| < 8 || file[..4] != MAGIC {
      return Failed(BadMagic);
    }
    if FromHost(host, file[4..8]) != VERSION {
      return Failed(BadVersion);
    }
    var events: seq<Command> := [];
    var pos := 8;
    while pos + RECORD_SIZE <= |file|
      invariant 8 <= pos <= |file|
      invariant Records(host, file[8..]) == events + Records(host, file[pos..])
      decreases |file| - pos
    {
      RecordsStep(host, file, pos, events);
      events := events + [Decoded(host, file[pos..pos + RECORD_SIZE])];
      pos := pos + RECORD_SIZE;
    }
    return Events(events);
  }

  lemma {:induction false} BodyOfJournalled(host: Host, cs: seq<Command>)
    ensures Body(host, cs) == Body(host, Journalled(cs))
    ensures |Body(host, cs)| == RECORD_SIZE * |Journalled(cs)|
    ensures forall i :: 0 <= i < |Journalled(cs)| ==> Journalled(cs)[i].kind != SHUTDOWN
    decreases |cs|
  {
    if cs != [] {
      BodyOfJournalled(host, cs[1..]);
      if cs[0].kind != SHUTDOWN {
        assert Journalled(cs)[1..] == Journalled(cs[1..]);
      } else {
        assert Journalled(cs) == Journalled(cs[1..]);
        assert Body(host, cs) == Body(host, cs[1..]);
      }
    }
  }

  lemma FirstRecord(record: seq<U8>, rest: seq<U8>, n: nat)
    requires |record| == RECORD_SIZE <= n <= RECORD_SIZE + |rest|
    ensures (record + rest)[..n][..RECORD_SIZE] == record
    ensures (record + rest)[..n][RECORD_SIZE..] == rest[..n - RECORD_SIZE]
  {
  }

  lemma EmptyBody(host: Host)
    ensures Body(host, []) == []
  {
  }

  lemma BodyStep(host: Host, cs: seq<Command>)
    requires cs != [] && cs[0].kind != SHUTDOWN
    ensures Body(host, cs) == Encoded(host, cs[0]) + Body(host, cs[1..])
  {
  }

  lemma FirstRecordRead(host: Host, c: Command, rest: seq<U8>, n: nat)
    requires RECORD_SIZE <= n <= RECORD_SIZE + |rest|
    ensures Records(host, (Encoded(host, c) + rest)[..n]) == [c] + Records(host, rest[..n - RECORD_SIZE])
  {
    hide Encoded, Decoded;
    FirstRecord(Encoded(host, c), rest, n);
    DecodeEncode(host, c);
  }

  lemma NoRecord(host: Host, body: seq<U8>)
    requires |body| < RECORD_SIZE
    ensures Records(host, body) == [] && |body| / RECORD_SIZE == 0
  {
  }

  lemma PrefixStep(cs: seq<Command>, n: nat)
    requires cs != [] && n >= RECORD_SIZE && (n - RECORD_SIZE) / RECORD_SIZE <= |cs| - 1
    ensures n / RECORD_SIZE == (n - RECORD_SIZE) / RECORD_SIZE + 1 <= |cs|
    ensures cs[..n / RECORD_SIZE] == [cs[0]] + cs[1..][..(n - RECORD_SIZE) / RECORD_SIZE]
  {
  }

  /** Any truncation of a body yields the commands whose records are complete. */
  lemma {:induction false} RecordsOfPrefix(host: Host, cs: seq<Command>, n: nat)
    requires forall i :: 0 <= i < |cs| ==> cs[i].kind != SHUTDOWN
    requires n <= |Body(host, cs)|
    ensures n / RECORD_SIZE <= |cs|
    ensures Records(host, Body(host, cs)[..n]) == cs[..n / RECORD_SIZE]
    decreases |cs|
  {
    hide Encoded, Records, Body;
    EmptyBody(host);
    if n < RECORD_SIZE {
      var torn := Body(host, cs)[..n];
      NoRecord(host, torn);
      assert |torn| == n && cs[..0] == [];
    } else {
      BodyStep(host, cs);
      FirstRecordRead(host, cs[0], Body(host, cs[1..]), n);
      RecordsOfPrefix(host, cs[1..], n - RECORD_SIZE);
      PrefixStep(cs, n);
    }
  }

  lemma FileParts(magic: seq<U8>, version: seq<U8>, body: seq<U8>, len: nat)
    requires |magic| == 4 && |version| == 4 && 8 <= len <= 8 + |body|
    ensures var file := ((magic + version) + body)[..len];
      |file| == len && file[..4] == magic && file[4..8] == version && file[8..] == body[..len - 8]
  {
    var whole := (magic + version) + body;
    var file := whole[..len];
    assert whole[..4] == magic && whole[4..8] == version && whole[8..] == body;
    assert file[..4] == whole[..4] && file[4..8] == whole[4..8];
    assert file[8..] == body[..len - 8];
  }

  /** For every command list and every truncation of its file: a truncated header is refused; otherwise reading yields
      exactly the first (len - 8) / 40 journalled commands. */
  lemma TornTailRecovery(host: Host, cs: seq<Command>, len: nat)
    requires len <= 8 + |Body(host, cs)|
    ensures len < 8 ==> ReadSpec(host, (Header(host) + Body(host, cs))[..len]) == Failed(BadMagic)
    ensures len >= 8 ==>
      && (len - 8) / RECORD_SIZE <= |Journalled(cs)|
      && ReadSpec(host, (Header(host) + Body(host, cs))[..len]) == Events(Journalled(cs)[..(len - 8) / RECORD_SIZE])
  {
    if len >= 8 {
      hide Body, Records, Journalled, FromHost, ToHost, Decoded;
      FileParts(MAGIC, ToHost(host, VERSION, 4), Body(host, cs), len);
      HostRoundTrip(host, VERSION, 4);
      BodyOfJournalled(host, cs);
      RecordsOfPrefix(host, Journalled(cs), len - 8);
    }
  }

  /** A journal from a host of the other byte order is refused for its version. */
  lemma ForeignHostRefused(writer: Host, reader: Host, cs: seq<Command>)
    requires writer != reader
    ensures ReadSpec(reader, Header(writer) + Body(writer, cs)) == Failed(BadVersion)
  {
    hide ToHost, FromHost, Body, Records;
    var file := Header(writer) + Body(writer, cs);
    FileParts(MAGIC, ToHost(writer, VERSION, 4), Body(writer, cs), |file|);
    assert file[..|file|] == file;
    ForeignVersion(writer, reader);
  }

  lemma ForeignVersion(writer: Host, reader: Host)
    requires writer != reader
    ensures FromHost(reader, ToHost(writer, VERSION, 4)) != VERSION
  {
    var low: seq<U8> := [1, 0, 0, 0];
    assert LowFirst(VERSION, 4) == low;
    assert Reverse(low) == [0, 0, 0, 1];
    assert Reverse([0, 0, 0, 1]) == low;
    assert Value([0, 0, 0, 1]) != VERSION;
  }

  class EventLogWriter {
    const host: Host
    var out: seq<U8>
    var count: nat

    constructor (host: Host)
      ensures out == Header(host) && count == 0 && this.host == host
    {
      this.host := host;
      out, count := Header(host), 0;
    }

    /** Appends a record; the shutdown sentinel is dropped. */
    method Append(c: Command)
      modifies this
      ensures out == old(out) + Body(host, [c])
      ensures count == old(count) + |Journalled([c])|
      ensures c.kind == 2 ==> out == old(out) && count == old(count)
      ensures c.kind != 2 ==>
                && |out| == |old(out)| + 40 && out[..|old(out)|] == old(out) && count == old(count) + 1
                && RecordAt(host, out, |old(out)|, c)
    {
      hide Word4, Word8;
      assert [c][1..] == [];
      if c.kind == SHUTDOWN {
        return;
      }
      var buf := new U8[RECORD_SIZE](_ => 0);
      Encode(host, c, buf);
      ghost var before := out;
      out := out + buf[..];
      assert out[|before|..|before| + 40] == buf[..];
      RecordShift(host, out, |before|, buf[..], c);
      count := count + 1;
    }
  }
}
