/** Inotify records: fixed headers in little-endian order, each followed by a NUL-padded name. */
module Records {
  newtype byte = x: int | 0 <= x < 256

  const HEADER := 16
  const TWO32 := 0x1_0000_0000

  datatype Record = Record(wd: nat, mask: nat, cookie: nat, name: seq<byte>)

  /** A slice past the end of the read buffer makes the program panic. */
  datatype Result = Decoded(records: seq<Record>) | Panic

  function Word(b: seq<byte>, i: nat): (w: nat)
    requires i + 4 <= |b|
  {
    b[i] as nat + 0x100 * b[i + 1] as nat + 0x1_0000 * b[i + 2] as nat + 0x100_0000 * b[i + 3] as nat
  }

  function WordBytes(w: nat): (b: seq<byte>)
    requires w < TWO32
    ensures |b| == 4
  {
    [(w % 0x100) as byte, (w / 0x100 % 0x100) as byte, (w / 0x1_0000 % 0x100) as byte, (w / 0x100_0000) as byte]
  }

  lemma WordRoundTrip(w: nat)
    requires w < TWO32
    ensures Word(WordBytes(w), 0) == w
  {
    var a, b, c := w / 0x100, w / 0x1_0000, w / 0x100_0000;
    assert w == 0x100 * a + w % 0x100;
    assert a == 0x100 * b + a % 0x100;
    assert b == 0x100 * c + b % 0x100;
  }

  lemma LowDigit(low: nat, rest: nat)
    requires low < 0x100
    ensures (low + 0x100 * rest) % 0x100 == low && (low + 0x100 * rest) / 0x100 == rest
  {
  }

  /** Little-endian: the first byte is the lowest. */
  lemma WordDigits(b: seq<byte>, i: nat)
    requires i + 4 <= |b|
    ensures var w := Word(b, i);
            && w % 0x100 == b[i] as nat && w / 0x100 % 0x100 == b[i + 1] as nat
            && w / 0x100 / 0x100 % 0x100 == b[i + 2] as nat && w / 0x100 / 0x100 / 0x100 == b[i + 3] as nat
  {
    var b0, b1, b2, b3 := b[i] as nat, b[i + 1] as nat, b[i + 2] as nat, b[i + 3] as nat;
    assert Word(b, i) == b0 + 0x100 * (b1 + 0x100 * (b2 + 0x100 * b3));
    LowDigit(b0, b1 + 0x100 * (b2 + 0x100 * b3));
    LowDigit(b1, b2 + 0x100 * b3);
    LowDigit(b2, b3);
  }

  /** The bytes before the first NUL; none if there is no NUL. */
  function UpToNul(b: seq<byte>): seq<byte> {
    if 0 in b then BeforeNul(b) else []
  }

  function BeforeNul(b: seq<byte>): seq<byte>
    requires 0 in b
  {
    if b[0] == 0 then [] else [b[0]] + BeforeNul(b[1..])
  }

  /** What the loop yields from `offset` on, with n bytes read into the buffer. */
  function DecodeFrom(buf: seq<byte>, n: nat, offset: nat): Result
    requires n <= |buf|
    decreases n - offset
  {
    if offset + HEADER > n then Decoded([])
    else
      var len := Word(buf, offset + 12);
      var start := offset + HEADER;
      if start + len > |buf| then Panic
      else
        var r := Record(Word(buf, offset), Word(buf, offset + 4), Word(buf, offset + 8),
                        UpToNul(buf[start..start + len]));
        match DecodeFrom(buf, n, start + len)
        case Decoded(rs) => Decoded([r] + rs)
        case Panic => Panic
  }

  // The kernel's side.

  datatype Padded = Padded(record: Record, pad: nat)

  predicate Encodable(p: Padded) {
    && p.record.wd < TWO32 && p.record.mask < TWO32 && p.record.cookie < TWO32
    && 0 !in p.record.name && |p.record.name| + p.pad < TWO32
    && (p.record.name != [] ==> p.pad > 0)
  }

  function NameBytes(p: Padded): (b: seq<byte>)
    ensures |b| == |p.record.name| + p.pad
  {
    p.record.name + seq(p.pad, _ => 0)
  }

  function Encode(p: Padded): (b: seq<byte>)
    requires Encodable(p)
    ensures |b| == HEADER + |p.record.name| + p.pad
  {
    WordBytes(p.record.wd) + WordBytes(p.record.mask) + WordBytes(p.record.cookie)
    + WordBytes(|p.record.name| + p.pad) + NameBytes(p)
  }

  function EncodeAll(ps: seq<Padded>): seq<byte>
    requires forall p | p in ps :: Encodable(p)
  {
    if ps == [] then [] else Encode(ps[0]) + EncodeAll(ps[1..])
  }

  function Records(ps: seq<Padded>): seq<Record> {
    if ps == [] then [] else [ps[0].record] + Records(ps[1..])
  }

  lemma {:induction false} NulAt(b: seq<byte>, i: nat)
    requires i < |b| && b[i] == 0 && 0 !in b[..i]
    ensures UpToNul(b) == b[..i]
    decreases i
  {
    if i > 0 {
      assert b[0] in b[..i];
      assert b[1..][..i - 1] == b[..i][1..];
      NulAt(b[1..], i - 1);
      assert b[..i] == [b[0]] + b[1..][..i - 1];
    }
  }

  lemma NameRoundTrip(p: Padded)
    requires Encodable(p)
    ensures UpToNul(NameBytes(p)) == p.record.name
  {
    var b := NameBytes(p);
    assert b[..|p.record.name|] == p.record.name;
    if p.pad > 0 {
      NulAt(b, |p.record.name|);
    } else {
      assert b == [];
    }
  }

  lemma WordInside(buf: seq<byte>, i: nat, w: nat)
    requires w < TWO32 && i + 4 <= |buf| && buf[i..i + 4] == WordBytes(w)
    ensures Word(buf, i) == w
  {
    WordRoundTrip(w);
    var b := buf[i..i + 4];
    assert b[0] == buf[i] && b[1] == buf[i + 1] && b[2] == buf[i + 2] && b[3] == buf[i + 3];
  }

  lemma SliceInside(pre: seq<byte>, mid: seq<byte>, post: seq<byte>, i: nat, j: nat)
    requires i <= j <= |mid|
    ensures (pre + mid + post)[|pre| + i..|pre| + j] == mid[i..j]
  {
  }

  lemma RecordParts(p: Padded)
    requires Encodable(p)
    ensures var b := Encode(p);
            && b[0..4] == WordBytes(p.record.wd) && b[4..8] == WordBytes(p.record.mask)
            && b[8..12] == WordBytes(p.record.cookie) && b[12..16] == WordBytes(|p.record.name| + p.pad)
            && b[16..|b|] == NameBytes(p)
  {
    hide WordBytes, NameBytes;
  }

  /** The fields of a record found at |pre|. */
  lemma RecordInside(pre: seq<byte>, p: Padded, post: seq<byte>)
    requires Encodable(p)
    ensures var buf := pre + Encode(p) + post;
            && Word(buf, |pre|) == p.record.wd && Word(buf, |pre| + 4) == p.record.mask
            && Word(buf, |pre| + 8) == p.record.cookie && Word(buf, |pre| + 12) == |p.record.name| + p.pad
            && buf[|pre| + HEADER..|pre| + |Encode(p)|] == NameBytes(p)
  {
    hide Word, WordBytes, NameBytes, Encode;
    RecordParts(p);
    var buf, i, b := pre + Encode(p) + post, |pre|, Encode(p);
    SliceInside(pre, b, post, 0, 4);
    SliceInside(pre, b, post, 4, 8);
    SliceInside(pre, b, post, 8, 12);
    SliceInside(pre, b, post, 12, 16);
    SliceInside(pre, b, post, 16, |b|);
    WordInside(buf, i, p.record.wd);
    WordInside(buf, i + 4, p.record.mask);
    WordInside(buf, i + 8, p.record.cookie);
    WordInside(buf, i + 12, |p.record.name| + p.pad);
  }

  function Prepend(rs: seq<Record>, r: Result): Result {
    match r
    case Decoded(more) => Decoded(rs + more)
    case Panic => Panic
  }

  lemma PrependTwice(rs: seq<Record>, r: Record, result: Result)
    ensures Prepend(rs, Prepend([r], result)) == Prepend(rs + [r], result)
  {
    if result.Decoded? { assert rs + ([r] + result.records) == (rs + [r]) + result.records; }
  }

  /** One turn of the loop. */
  lemma DecodeOne(buf: seq<byte>, n: nat, offset: nat)
    requires n <= |buf| && offset + HEADER <= n
    requires offset + HEADER + Word(buf, offset + 12) <= |buf|
    ensures var start := offset + HEADER;
            var end := start + Word(buf, offset + 12);
            DecodeFrom(buf, n, offset) ==
            Prepend([Record(Word(buf, offset), Word(buf, offset + 4), Word(buf, offset + 8), UpToNul(buf[start..end]))],
                    DecodeFrom(buf, n, end))
  {
  }

  lemma DecodeFirst(pre: seq<byte>, p: Padded, post: seq<byte>, n: nat)
    requires Encodable(p) && |pre| + |Encode(p)| <= n <= |pre + Encode(p) + post|
    ensures var buf := pre + Encode(p) + post;
            DecodeFrom(buf, n, |pre|) == Prepend([p.record], DecodeFrom(buf, n, |pre| + |Encode(p)|))
  {
    hide Word, Encode, UpToNul, NameBytes, DecodeFrom, Prepend;
    RecordInside(pre, p, post);
    NameRoundTrip(p);
    DecodeOne(pre + Encode(p) + post, n, |pre|);
  }

  /** Whatever follows the records of the kernel in the buffer, with n bytes of it read: the loop yields
      these records and then what that rest decodes to. */
  lemma {:induction false} DecodeAfter(pre: seq<byte>, ps: seq<Padded>, post: seq<byte>, n: nat)
    requires (forall p :: p in ps ==> Encodable(p)) && n <= |post|
    ensures var buf, at := pre + EncodeAll(ps) + post, |pre| + |EncodeAll(ps)|;
            DecodeFrom(buf, at + n, |pre|) == Prepend(Records(ps), DecodeFrom(buf, at + n, at))
    decreases |ps|
  {
    hide Word, Encode, UpToNul, Encodable, DecodeFrom;
    if ps == [] {
      PrependNone(DecodeFrom(pre + EncodeAll(ps) + post, |pre| + n, |pre|));
    } else {
      var p, rest := ps[0], EncodeAll(ps[1..]);
      var buf, at := pre + EncodeAll(ps) + post, |pre| + |EncodeAll(ps)|;
      assert buf == pre + Encode(p) + (rest + post);
      DecodeFirst(pre, p, rest + post, at + n);
      DecodeAfter(pre + Encode(p), ps[1..], post, n);
      assert buf == (pre + Encode(p)) + rest + post;
      PrependFirst(p.record, Records(ps[1..]), DecodeFrom(buf, at + n, at));
    }
  }

  lemma PrependFirst(r: Record, rs: seq<Record>, result: Result)
    ensures Prepend([r], Prepend(rs, result)) == Prepend([r] + rs, result)
  {
    if result.Decoded? { assert [r] + (rs + result.records) == ([r] + rs) + result.records; }
  }

  /** The loop yields exactly the records that the kernel wrote, in order, whatever stale bytes the buffer
      still holds from earlier reads; a piece of a header at the end of the bytes read is dropped. */
  lemma RoundTrip(ps: seq<Padded>, stale: seq<byte>, n: nat)
    requires (forall p :: p in ps ==> Encodable(p)) && n <= |stale| && n < HEADER
    ensures DecodeFrom(EncodeAll(ps) + stale, |EncodeAll(ps)| + n, 0) == Decoded(Records(ps))
  {
    hide Encodable, EncodeAll, Records;
    DecodeAfter([], ps, stale, n);
    assert [] + EncodeAll(ps) + stale == EncodeAll(ps) + stale;
    PrependLast(Records(ps));
  }

  /** A record after these whose length runs past the buffer is a panic, and past the bytes read is not. */
  lemma Overrun(ps: seq<Padded>, post: seq<byte>, n: nat)
    requires (forall p :: p in ps ==> Encodable(p)) && HEADER <= n <= |post|
    ensures var len := post[12] as nat + 0x100 * post[13] as nat + 0x1_0000 * post[14] as nat
                       + 0x100_0000 * post[15] as nat;
            && (HEADER + len > |post| ==>
                  DecodeFrom(EncodeAll(ps) + post, |EncodeAll(ps)| + n, 0) == Panic)
            && (n < HEADER + len <= |post| ==>
                  exists r :: DecodeFrom(EncodeAll(ps) + post, |EncodeAll(ps)| + n, 0) == Decoded(Records(ps) + [r]))
  {
    hide Encodable, EncodeAll, Records, UpToNul;
    var buf, at := EncodeAll(ps) + post, |EncodeAll(ps)|;
    DecodeAfter([], ps, post, n);
    assert [] + EncodeAll(ps) + post == buf;
    assert buf[at + 12] == post[12] && buf[at + 13] == post[13] && buf[at + 14] == post[14] && buf[at + 15] == post[15];
    PrependLast(Records(ps));
  }

  method NameOf(buf: array<byte>, start: nat, end: nat) returns (name: seq<byte>)
    requires start <= end <= buf.Length
    ensures name == UpToNul(buf[start..end])
    ensures 0 !in name
    ensures 0 in buf[start..end] ==> name + [0] <= buf[start..end]
    ensures 0 !in buf[start..end] ==> name == []
  {
    ghost var b := buf[start..end];
    for i := start to end
      invariant 0 !in b[..i - start]
    {
      assert b[..i - start + 1] == b[..i - start] + [b[i - start]];
      if buf[i] == 0 {
        NulAt(b, i - start);
        assert b[..i - start] == buf[start..i];
        return buf[start..i];
      }
    }
    assert b[..end - start] == b;
    name := [];
  }

  /** The decoding loop of `readInotifyEvents`. */
  method Decode(buf: array<byte>, bytesRead: nat) returns (result: Result)
    requires bytesRead <= buf.Length
    ensures result == DecodeFrom(buf[..], bytesRead, 0)
  {
    hide Word, UpToNul, Prepend;
    var offset, records := 0, [];
    ghost var b := buf[..];
    PrependNone(DecodeFrom(b, bytesRead, 0));
    while offset < bytesRead
      invariant Prepend(records, DecodeFrom(b, bytesRead, offset)) == DecodeFrom(b, bytesRead, 0)
      decreases bytesRead - offset
    {
      if offset + HEADER > bytesRead {
        break;
      }
      ghost var at, before := offset, records;
      var wd, mask, cookie := Word(buf[..], offset), Word(buf[..], offset + 4), Word(buf[..], offset + 8);
      var len := Word(buf[..], offset + 12);
      offset := offset + HEADER;
      var name := [];
      if len > 0 {
        if offset + len > buf.Length {
          PrependLast(records);
          return Panic;
        }
        name := NameOf(buf, offset, offset + len);
        offset := offset + len;
      } else {
        NoName(b, offset);
      }
      assert buf[at + HEADER..offset] == b[at + HEADER..offset];
      records := records + [Record(wd, mask, cookie, name)];
      DecodeOne(b, bytesRead, at);
      PrependTwice(before, Record(wd, mask, cookie, name), DecodeFrom(b, bytesRead, offset));
    }
    PrependLast(records);
    result := Decoded(records);
  }

  lemma PrependNone(result: Result)
    ensures Prepend([], result) == result
  {
  }

  lemma PrependLast(rs: seq<Record>)
    ensures Prepend(rs, Decoded([])) == Decoded(rs) && Prepend(rs, Panic) == Panic
  {
    assert rs + [] == rs;
  }

  lemma NoName(b: seq<byte>, i: nat)
    requires i <= |b|
    ensures UpToNul(b[i..i]) == []
  {
  }
}
