/** The license format byte by byte: which number four bytes are, which time a number is, what every kind of entry
    looks like, and what becomes of input that is broken or ends early (License.cpp, lines 90-230;
    misc/endianness.h, lines 44-49 and 73-78). */
module LicenseBytes {
  import opened LicenseSpec

  // ------------------------------------------------------------------ numbers

  /** The number that bytes write to the base 256, the most significant one first. */
  function Number(bytes: seq<byte>): (n: nat) {
    if bytes == [] then 0 else Number(bytes[..|bytes| - 1]) * 256 + bytes[|bytes| - 1]
  }

  lemma NumberOfFour(q: Quad)
    ensures var a: int, b: int, c: int, d: int := q[0], q[1], q[2], q[3];
      Number(q) == ((a * 256 + b) * 256 + c) * 256 + d && Number(q) < 0x1_0000_0000
  {
    var a: int, b: int, c: int := q[0], q[1], q[2];
    assert q[..3][..2] == q[..2] && q[..2][..1] == q[..1] && q[..1][..0] == [];
    assert Number(q[..1]) == a;
    assert Number(q[..2]) == a * 256 + b;
    assert Number(q[..3]) == (a * 256 + b) * 256 + c;
  }

  function NumberOf(q: Quad): uint32 {
    NumberOfFour(q);
    Number(q)
  }

  /** Reading is that number, and writing finds its bytes. */
  lemma BigIsNumber(q: Quad, v: uint32)
    ensures FromBig(q) == Number(q)
    ensures Big(v) == q <==> Number(q) == v
  {
    NumberOfFour(q);
    FromBigRoundTrip(q);
    BigRoundTrip(v);
  }

  /** The first byte in which two quads differ decides which number is smaller. */
  ghost predicate Earlier(q: Quad, r: Quad) {
    exists i :: 0 <= i < 4 && q[..i] == r[..i] && q[i] < r[i]
  }

  lemma EarlierAt(q: Quad, r: Quad, i: nat)
    requires i < 4 && q[..i] == r[..i] && q[i] < r[i]
    ensures Number(q) < Number(r)
  {
    NumberOfFour(q);
    NumberOfFour(r);
    forall j | 0 <= j < i ensures q[j] == r[j] {
      assert q[..i][j] == r[..i][j];
    }
  }

  lemma NumbersOrdered(q: Quad, r: Quad)
    ensures FromBig(q) < FromBig(r) <==> Earlier(q, r)
  {
    BigIsNumber(q, 0);
    BigIsNumber(r, 0);
    if Earlier(q, r) {
      var i :| 0 <= i < 4 && q[..i] == r[..i] && q[i] < r[i];
      EarlierAt(q, r, i);
    } else if q != r {
      var i := if q[0] != r[0] then 0 else if q[1] != r[1] then 1 else if q[2] != r[2] then 2 else 3;
      assert q[..i] == r[..i];
      assert r[..i] == q[..i] && r[i] < q[i];
      EarlierAt(r, q, i);
    }
  }

  // ------------------------------------------------------------------ times

  /** The time of four bytes: whole seconds from the beginning of 2013 on. */
  function TimeOf(q: Quad): Time {
    (1_356_998_400 + NumberOf(q)) * 1_000_000_000
  }

  lemma StampIsTime(q: Quad)
    ensures FromStamp(FromBig(q)) == TimeOf(q)
  {
    BigIsNumber(q, 0);
  }

  /** Fractions of a second are cut off towards zero, and the count of seconds wraps around after 32 bits. */
  lemma StampCuts(seconds: nat, fraction: nat, t: Time)
    requires fraction < 1_000_000_000
    ensures t == seconds * 1_000_000_000 + fraction ==> Stamp(t) == (seconds - 1_356_998_400) % 0x1_0000_0000
    ensures t == -(seconds * 1_000_000_000 + fraction) ==> Stamp(t) == (0 - seconds - 1_356_998_400) % 0x1_0000_0000
  {
    var n := seconds * 1_000_000_000 + fraction;
    assert n / 1_000_000_000 == seconds;
  }

  // ------------------------------------------------------------------ entries

  function Front(key: Key, kind: byte, begin: Quad, end: Quad): seq<byte> {
    [0] + key + [kind] + begin + end
  }

  lemma EntryBytes(key: Key, kind: byte, begin: Quad, end: Quad, body: seq<byte>)
    requires DecodeContent(kind, body).GotContent?
    ensures var r := DecodeContent(kind, body);
      Decode(Front(key, kind, begin, end) + body) ==
      Got(License(key, TimeOf(begin), TimeOf(end), r.content), r.rest, r.open)
  {
    assert Front(key, kind, begin, end) == Header(key, kind, begin, end);
    DecodeHeader(key, kind, begin, end, body);
    StampIsTime(begin);
    StampIsTime(end);
  }

  lemma IssuerLine(issuer: seq<byte>, tail: seq<byte>)
    requires !HasNul(issuer)
    ensures var b := issuer + [0] + tail; HasNul(b) && Line(b) == issuer && AfterLine(b) == tail
    ensures !HasNul(issuer) && Line(issuer) == issuer && AfterLine(issuer) == []
  {
    LineOfTerminated(issuer, tail);
    LineSplits(issuer);
  }

  /** Type 0: four bytes and an issuer. */
  lemma IntermediateBytes(key: Key, begin: Quad, end: Quad, dummy: Quad, issuer: seq<byte>, tail: seq<byte>)
    requires !HasNul(issuer)
    ensures Decode(Front(key, 0, begin, end) + (dummy + (issuer + [0] + tail))) ==
      Got(License(key, TimeOf(begin), TimeOf(end), Intermediate(dummy, issuer)), tail, false)
  {
    var body := dummy + (issuer + [0] + tail);
    IssuerLine(issuer, tail);
    assert body[..4] == dummy && body[4..] == issuer + [0] + tail;
    EntryBytes(key, 0, begin, end, body);
  }

  /** Type 2: one byte for the license type, four for the slots, and an issuer. */
  lemma ServerBytes(key: Key, begin: Quad, end: Quad, licenseType: byte, slots: Quad, issuer: seq<byte>,
    tail: seq<byte>)
    requires !HasNul(issuer)
    ensures Decode(Front(key, 2, begin, end) + ([licenseType] + slots + (issuer + [0] + tail))) ==
      Got(License(key, TimeOf(begin), TimeOf(end), Server(licenseType, NumberOf(slots), issuer)), tail, false)
  {
    var body := [licenseType] + slots + (issuer + [0] + tail);
    IssuerLine(issuer, tail);
    BigIsNumber(slots, 0);
    assert body[0] == licenseType && body[1..5] == slots && body[5..] == issuer + [0] + tail;
    EntryBytes(key, 2, begin, end, body);
  }

  /** Type 3: an issuer. Types 5 and 32: nothing. */
  lemma OtherBytes(key: Key, begin: Quad, end: Quad, issuer: seq<byte>, tail: seq<byte>)
    requires !HasNul(issuer)
    ensures Decode(Front(key, 3, begin, end) + (issuer + [0] + tail)) ==
      Got(License(key, TimeOf(begin), TimeOf(end), Code(issuer)), tail, false)
    ensures Decode(Front(key, 5, begin, end) + tail) ==
      Got(License(key, TimeOf(begin), TimeOf(end), LicenseSign), tail, false)
    ensures Decode(Front(key, 32, begin, end) + tail) ==
      Got(License(key, TimeOf(begin), TimeOf(end), Ephemeral), tail, false)
  {
    IssuerLine(issuer, tail);
    EntryBytes(key, 3, begin, end, issuer + [0] + tail);
    EntryBytes(key, 5, begin, end, tail);
    EntryBytes(key, 32, begin, end, tail);
  }

  function KnownBytes(key: Key): seq<byte> {
    Front(key, 2, [0, 0, 0, 1], [0, 0, 1, 0]) + ([3] + [0, 0, 0, 32] + ([84, 83] + [0] + []))
  }

  lemma KnownEntry(key: Key)
    ensures Decode(KnownBytes(key)) ==
      Got(License(key, 1_356_998_401_000_000_000, 1_356_998_656_000_000_000, Server(3, 32, [84, 83])), [], false)
  {
    assert !HasNul([84, 83]) by {
      assert [84, 83][1..] == [83] && [83][1..] == [];
    }
    ServerBytes(key, [0, 0, 0, 1], [0, 0, 1, 0], 3, [0, 0, 0, 32], [84, 83], []);
    NumberOfFour([0, 0, 0, 1]);
    NumberOfFour([0, 0, 1, 0]);
    NumberOfFour([0, 0, 0, 32]);
  }

  /** A whole license: a server entry of license type 3 with 32 slots, issued by "TS", that begins one second and
      ends 256 seconds into 2013. */
  lemma KnownLicense(key: Key, returnOnError: bool)
    ensures var license :=
        License(key, 1_356_998_401_000_000_000, 1_356_998_656_000_000_000, Server(3, 32, [84, 83]));
      Parse([1] + KnownBytes(key), returnOnError) == Parsed([license], NoError, false) &&
      Export([license]) == [1] + KnownBytes(key)
  {
    var bytes := [1] + KnownBytes(key);
    KnownEntry(key);
    BehindFirst(1, KnownBytes(key));
    assert ReadAll([]) == Entries([], NoError, false);
    ExportAfterParse(bytes);
    assert bytes + [] == bytes;
  }

  // ------------------------------------------------------------------ broken input

  /** What is wrong with a block that cannot be read. */
  lemma BrokenBlock(b: seq<byte>)
    ensures b == [] <==> Decode(b) == End
    ensures 0 < |b| < 42 <==> Decode(b) == Bad(ShortBlock)
    ensures |b| >= 42 && b[0] != 0 ==> Decode(b) == Bad(InvalidEntryType(b[0]))
    ensures |b| >= 42 && b[0] == 0 && b[33] !in {0, 2, 3, 5, 32} ==> Decode(b) == Bad(InvalidLicenseType(b[33]))
    ensures |b| >= 42 && b[0] == 0 && b[33] == 0 && |b| < 46 ==> Decode(b) == Bad(ShortData)
    ensures |b| >= 42 && b[0] == 0 && b[33] == 2 && |b| < 47 ==>
      Decode(b) == Bad(if |b| == 42 then NoServerType else ShortData)
    ensures Decode(b).Bad? ==>
      |b| < 42 || b[0] != 0 || b[33] !in {0, 2, 3, 5, 32} || (b[33] == 0 && |b| < 46) || (b[33] == 2 && |b| < 47)
  {
  }

  function InFront(c: seq<License>, r: Entries): Entries {
    Entries(c + r.chain, r.error, r.open)
  }

  lemma FirstInFront(l: License, b: seq<byte>)
    requires Plain(l)
    ensures ReadAll(Encode(l) + b) == InFront([l], ReadAll(b))
  {
    DecodeEncoded(l, b);
    PlainIffSeen(l);
    assert Surplus(l.content) + b == b;
  }

  lemma InFrontTwice(l: License, c: seq<License>, r: Entries)
    ensures InFront([l], InFront(c, r)) == InFront([l] + c, r)
  {
    assert [l] + (c + r.chain) == [l] + c + r.chain;
  }

  lemma InFrontOfAll(r: Entries)
    ensures InFront([], r) == r
  {
    assert [] + r.chain == r.chain;
  }

  /** Entries in front of any bytes are read, and then those bytes. */
  lemma {:induction false} ReadInFront(c: seq<License>, b: seq<byte>)
    requires AllPlain(c)
    ensures ReadAll(EncodeAll(c) + b) == InFront(c, ReadAll(b))
  {
    if c == [] {
      InFrontOfAll(ReadAll(b));
      assert EncodeAll(c) + b == b;
    } else {
      var first, rest := c[0], c[1..];
      ReadInFront(rest, b);
      FirstInFront(first, EncodeAll(rest) + b);
      InFrontTwice(first, rest, ReadAll(b));
      Joined(Encode(first), EncodeAll(rest), b);
      assert [first] + rest == c;
    }
  }

  /** A broken block behind a chain: its entries are returned with the error where that is wanted, and nothing
      otherwise. */
  lemma BrokenTail(c: seq<License>, b: seq<byte>)
    requires (forall i :: 0 <= i < |c| ==> Plain(c[i])) && Decode(b).Bad?
    ensures Parse(Export(c) + b, true) == Parsed(c, Decode(b).error, false)
    ensures Parse(Export(c) + b, false) == Rejected(Decode(b).error)
  {
    ReadInFront(c, b);
    BrokenInFront(c, b);
    ParsedBytes(c, b);
  }

  lemma BrokenInFront(c: seq<License>, b: seq<byte>)
    requires Decode(b).Bad?
    ensures InFront(c, ReadAll(b)) == Entries(c, Decode(b).error, false)
  {
    assert c + [] == c;
  }

  lemma ParsedBytes(c: seq<License>, b: seq<byte>)
    ensures Export(c) + b != [] && (Export(c) + b)[0] == 1 && (Export(c) + b)[1..] == EncodeAll(c) + b
  {
    Joined([1], EncodeAll(c), b);
    BehindFirst(1, EncodeAll(c) + b);
  }

  lemma BehindFirst(first: byte, rest: seq<byte>)
    ensures [first] + rest != [] && ([first] + rest)[0] == first && ([first] + rest)[1..] == rest
  {
  }

  /** The content without the NUL behind its issuer. */
  function Unclosed(c: Content): seq<byte> {
    match c
    case Intermediate(dummy, issuer) => dummy + issuer
    case Server(licenseType, slots, issuer) => [licenseType] + Big(slots) + issuer
    case Code(issuer) => issuer
    case _ => []
  }

  predicate HasIssuer(c: Content) {
    c.Intermediate? || c.Server? || c.Code?
  }

  lemma UnclosedContent(c: Content)
    requires HasIssuer(c) && !HasNul(Issuer(c))
    ensures EncodeContent(c) == Unclosed(c) + [0]
    ensures DecodeContent(Kind(c), Unclosed(c)) == GotContent(c, [], true)
  {
    LineSplits(Issuer(c));
    match c
    case Intermediate(dummy, issuer) =>
      assert Unclosed(c)[..4] == dummy && Unclosed(c)[4..] == issuer;
    case Server(licenseType, slots, issuer) =>
      var b := Unclosed(c);
      BigRoundTrip(slots);
      assert b[0] == licenseType && b[1..5] == Big(slots) && b[5..] == issuer;
    case Code(issuer) =>
  }

  /** The last issuer of a chain may end with the input in place of a NUL. */
  lemma OpenTail(c: seq<License>, l: License, returnOnError: bool)
    requires (forall i :: 0 <= i < |c| ==> Plain(c[i])) && Plain(l) && HasIssuer(l.content)
    ensures var bytes := Export(c + [l]);
      bytes[|bytes| - 1] == 0 && Parse(bytes[..|bytes| - 1], returnOnError) == Parsed(c + [l], NoError, true)
  {
    var h := Header(l.key, Kind(l.content), Big(Stamp(l.begin)), Big(Stamp(l.end)));
    var last := h + Unclosed(l.content);
    var bytes := Export(c + [l]);
    EncodeAllAppend(c, l);
    UnclosedContent(l.content);
    Joined(h, Unclosed(l.content), [0]);
    assert bytes == [1] + (EncodeAll(c) + last) + [0];
    assert bytes[..|bytes| - 1] == [1] + (EncodeAll(c) + last);
    assert bytes[..|bytes| - 1][1..] == EncodeAll(c) + last;
    OpenEntry(l);
    ReadInFront(c, last);
  }

  lemma OpenEntry(l: License)
    requires Plain(l) && HasIssuer(l.content)
    ensures ReadAll(Header(l.key, Kind(l.content), Big(Stamp(l.begin)), Big(Stamp(l.end))) + Unclosed(l.content)) ==
      Entries([l], NoError, true)
  {
    UnclosedContent(l.content);
    DecodeHeader(l.key, Kind(l.content), Big(Stamp(l.begin)), Big(Stamp(l.end)), Unclosed(l.content));
    BigRoundTrip(Stamp(l.begin));
    BigRoundTrip(Stamp(l.end));
    StampRoundTrip(l.begin);
    StampRoundTrip(l.end);
  }
}
