/** The license chain format as functions on bytes (License.cpp, lines 90-230 and 268-275; License.h,
    lines 62-151; misc/endianness.h, the 32-bit macros), its round trips and where they end. */
module LicenseSpec {

  type byte = x: int | 0 <= x < 256
  type uint32 = x: int | 0 <= x < 0x1_0000_0000
  type Quad = q: seq<byte> | |q| == 4 witness [0, 0, 0, 0]
  type Key = k: seq<byte> | |k| == 32 witness seq(32, _ => 0)

  /** Nanoseconds since the epoch in 64 bits, as the system clock counts. */
  type Time = t: int | -0x8000_0000_0000_0000 <= t < 0x8000_0000_0000_0000

  const TIMESTAMP_OFFSET: int := 0x50e22700
  const SECOND: int := 1_000_000_000

  datatype Content =
    | Intermediate(dummy: Quad, issuer: seq<byte>)
    | Server(licenseType: byte, slots: uint32, issuer: seq<byte>)
    | Code(issuer: seq<byte>)
    | LicenseSign
    | Ephemeral

  datatype License = License(key: Key, begin: Time, end: Time, content: Content)

  datatype ReadError =
    | NoError
    | InvalidStreamLength
    | InvalidChainType(found: byte)
    | ShortBlock
    | InvalidEntryType(found: byte)
    | InvalidLicenseType(found: byte)
    | NoServerType
    | ShortData

  // ------------------------------------------------------------------ numbers and times

  function Big(v: uint32): Quad {
    [v / 0x100_0000, v / 0x1_0000 % 0x100, v / 0x100 % 0x100, v % 0x100]
  }

  function FromBig(q: Quad): uint32 {
    var b0: int, b1: int, b2: int, b3: int := q[0], q[1], q[2], q[3];
    b0 * 0x100_0000 + b1 * 0x1_0000 + b2 * 0x100 + b3
  }

  lemma BigRoundTrip(v: uint32)
    ensures FromBig(Big(v)) == v
  {
    var n: int := v;
    assert n / 0x1_0000 == n / 0x100 / 0x100;
    assert n / 0x100_0000 == n / 0x1_0000 / 0x100;
  }

  lemma LowByte(high: nat, low: byte)
    ensures (high * 0x100 + low) / 0x100 == high && (high * 0x100 + low) % 0x100 == low
  {
  }

  lemma FromBigRoundTrip(q: Quad)
    ensures Big(FromBig(q)) == q
  {
    var h1: nat := q[0];
    var h2: nat := h1 * 0x100 + q[1];
    var h3: nat := h2 * 0x100 + q[2];
    var n: nat := FromBig(q);
    assert n == h3 * 0x100 + q[3];
    LowByte(h1, q[1]);
    LowByte(h2, q[2]);
    LowByte(h3, q[3]);
    assert n / 0x1_0000 == n / 0x100 / 0x100 && n / 0x100_0000 == n / 0x1_0000 / 0x100;
  }

  /** duration_cast to seconds truncates towards zero; the difference is cut to 32 bits. */
  function Stamp(t: Time): uint32 {
    var n: int := t;
    var seconds := if n >= 0 then n / SECOND else -(-n / SECOND);
    (seconds - TIMESTAMP_OFFSET) % 0x1_0000_0000
  }

  function FromStamp(v: uint32): Time {
    (v + TIMESTAMP_OFFSET) * SECOND
  }

  /** A whole second within 32 bits of the offset. */
  predicate Representable(t: Time) {
    t % SECOND == 0 && TIMESTAMP_OFFSET <= t / SECOND < TIMESTAMP_OFFSET + 0x1_0000_0000
  }

  lemma StampRoundTrip(t: Time)
    ensures FromStamp(Stamp(t)) == t <==> Representable(t)
  {
  }

  lemma FromStampRoundTrip(v: uint32)
    ensures Stamp(FromStamp(v)) == v && Representable(FromStamp(v))
  {
  }

  // ------------------------------------------------------------------ NUL-terminated lines

  predicate HasNul(b: seq<byte>) {
    b != [] && (b[0] == 0 || HasNul(b[1..]))
  }

  /** What getline up to NUL extracts, and what it leaves in the stream. */
  function Line(b: seq<byte>): (r: seq<byte>)
    ensures |r| <= |b| && !HasNul(r)
  {
    if b == [] || b[0] == 0 then [] else [b[0]] + Line(b[1..])
  }

  function AfterLine(b: seq<byte>): (r: seq<byte>)
    ensures |r| <= |b|
  {
    if b == [] then [] else if b[0] == 0 then b[1..] else AfterLine(b[1..])
  }

  lemma {:induction false} LineSplits(b: seq<byte>)
    ensures HasNul(b) ==> b == Line(b) + [0] + AfterLine(b)
    ensures !HasNul(b) ==> Line(b) == b && AfterLine(b) == []
  {
    if b != [] && b[0] != 0 {
      LineSplits(b[1..]);
      assert b == [b[0]] + b[1..];
    }
  }

  lemma {:induction false} LineOfTerminated(issuer: seq<byte>, tail: seq<byte>)
    ensures HasNul(issuer + [0] + tail)
    ensures Line(issuer + [0] + tail) == Line(issuer)
    ensures AfterLine(issuer + [0] + tail) == if HasNul(issuer) then AfterLine(issuer) + [0] + tail else tail
  {
    var b := issuer + [0] + tail;
    if issuer == [] {
      assert b == [0] + tail;
    } else {
      assert b[1..] == issuer[1..] + [0] + tail;
      if issuer[0] == 0 {
        assert AfterLine(issuer) == issuer[1..];
      } else {
        LineOfTerminated(issuer[1..], tail);
      }
    }
  }

  // ------------------------------------------------------------------ writing

  function Kind(c: Content): byte {
    match c
    case Intermediate(_, _) => 0x00
    case Server(_, _, _) => 0x02
    case Code(_) => 0x03
    case LicenseSign => 0x05
    case Ephemeral => 0x20
  }

  function EncodeContent(c: Content): seq<byte> {
    match c
    case Intermediate(dummy, issuer) => dummy + issuer + [0]
    case Server(licenseType, slots, issuer) => [licenseType] + Big(slots) + issuer + [0]
    case Code(issuer) => issuer + [0]
    case LicenseSign => []
    case Ephemeral => []
  }

  function Header(key: Key, kind: byte, begin: Quad, end: Quad): (h: seq<byte>)
    ensures |h| == 42
  {
    [0] + key + [kind] + begin + end
  }

  function Encode(l: License): seq<byte> {
    Header(l.key, Kind(l.content), Big(Stamp(l.begin)), Big(Stamp(l.end))) + EncodeContent(l.content)
  }

  function EncodeAll(c: seq<License>): seq<byte> {
    if c == [] then [] else Encode(c[0]) + EncodeAll(c[1..])
  }

  function Export(c: seq<License>): seq<byte> {
    [1] + EncodeAll(c)
  }

  lemma {:induction false} EncodeAllAppend(c: seq<License>, l: License)
    ensures EncodeAll(c + [l]) == EncodeAll(c) + Encode(l)
  {
    if c == [] {
      assert c + [l] == [l] && EncodeAll([]) == [];
    } else {
      assert (c + [l])[1..] == c[1..] + [l];
      EncodeAllAppend(c[1..], l);
    }
  }

  // ------------------------------------------------------------------ reading

  datatype ContentResult = NoContent(error: ReadError) | GotContent(content: Content, rest: seq<byte>, open: bool)

  /** `open`: the line of the issuer ran into the end of the input. */
  function DecodeContent(kind: byte, b: seq<byte>): (r: ContentResult)
    ensures r.GotContent? ==> |r.rest| <= |b| && (r.open ==> r.rest == [])
    ensures r.NoContent? ==> r.error != NoError
  {
    if kind == 0x00 then
      if |b| < 4 then NoContent(ShortData)
      else LineContent(Intermediate(b[..4], Line(b[4..])), b[4..])
    else if kind == 0x02 then
      if |b| < 1 then NoContent(NoServerType)
      else if |b| < 5 then NoContent(ShortData)
      else LineContent(Server(b[0], FromBig(b[1..5]), Line(b[5..])), b[5..])
    else if kind == 0x03 then LineContent(Code(Line(b)), b)
    else if kind == 0x05 then GotContent(LicenseSign, b, false)
    else if kind == 0x20 then GotContent(Ephemeral, b, false)
    else NoContent(InvalidLicenseType(kind))
  }

  function LineContent(c: Content, b: seq<byte>): (r: ContentResult)
    ensures r.GotContent? && |r.rest| <= |b| && (r.open ==> r.rest == [])
  {
    LineSplits(b);
    GotContent(c, AfterLine(b), !HasNul(b))
  }

  datatype ReadResult = End | Bad(error: ReadError) | Got(license: License, rest: seq<byte>, open: bool)

  function Decode(b: seq<byte>): (r: ReadResult)
    ensures r.Got? ==> |r.rest| + 42 <= |b| && (r.open ==> r.rest == [])
    ensures r.Bad? ==> r.error != NoError
  {
    if b == [] then End
    else if |b| < 42 then Bad(ShortBlock)
    else if b[0] != 0 then Bad(InvalidEntryType(b[0]))
    else
      match DecodeContent(b[33], b[42..])
      case NoContent(error) => Bad(error)
      case GotContent(content, rest, open) =>
        Got(License(b[1..33], FromStamp(FromBig(b[34..38])), FromStamp(FromBig(b[38..42])), content), rest, open)
  }

  /** All entries up to the end or the first error. */
  datatype Entries = Entries(chain: seq<License>, error: ReadError, open: bool)

  function ReadAll(b: seq<byte>): Entries
    decreases |b|
  {
    match Decode(b)
    case End => Entries([], NoError, false)
    case Bad(error) => Entries([], error, false)
    case Got(license, rest, open) =>
      if open then Entries([license], NoError, true)
      else
        var more := ReadAll(rest);
        Entries([license] + more.chain, more.error, more.open)
  }

  datatype ParseResult = Rejected(error: ReadError) | Parsed(chain: seq<License>, error: ReadError, open: bool)

  function Parse(b: seq<byte>, returnOnError: bool): ParseResult {
    if b == [] then Rejected(InvalidStreamLength)
    else if b[0] != 1 then Rejected(InvalidChainType(b[0]))
    else
      var r := ReadAll(b[1..]);
      if r.error != NoError && !returnOnError then Rejected(r.error) else Parsed(r.chain, r.error, r.open)
  }

  // ------------------------------------------------------------------ parse after export

  function Issuer(c: Content): seq<byte> {
    match c
    case Intermediate(_, issuer) => issuer
    case Server(_, _, issuer) => issuer
    case Code(issuer) => issuer
    case LicenseSign => []
    case Ephemeral => []
  }

  /** The content as it is read back: with the issuer up to its first NUL. */
  function Seen(c: Content): Content {
    match c
    case Intermediate(dummy, issuer) => Intermediate(dummy, Line(issuer))
    case Server(licenseType, slots, issuer) => Server(licenseType, slots, Line(issuer))
    case Code(issuer) => Code(Line(issuer))
    case LicenseSign => LicenseSign
    case Ephemeral => Ephemeral
  }

  /** What a NUL within the issuer leaves behind for the next entry. */
  function Surplus(c: Content): seq<byte> {
    if HasNul(Issuer(c)) then AfterLine(Issuer(c)) + [0] else []
  }

  lemma DecodeEncodedIntermediate(dummy: Quad, issuer: seq<byte>, tail: seq<byte>)
    ensures var c := Intermediate(dummy, issuer);
            DecodeContent(0x00, EncodeContent(c) + tail) == GotContent(Seen(c), Surplus(c) + tail, false)
  {
    var b := EncodeContent(Intermediate(dummy, issuer)) + tail;
    LineOfTerminated(issuer, tail);
    assert b == dummy + (issuer + [0] + tail);
    assert b[..4] == dummy && b[4..] == issuer + [0] + tail;
  }

  lemma DecodeEncodedServer(licenseType: byte, slots: uint32, issuer: seq<byte>, tail: seq<byte>)
    ensures var c := Server(licenseType, slots, issuer);
            DecodeContent(0x02, EncodeContent(c) + tail) == GotContent(Seen(c), Surplus(c) + tail, false)
  {
    var b := EncodeContent(Server(licenseType, slots, issuer)) + tail;
    LineOfTerminated(issuer, tail);
    BigRoundTrip(slots);
    ServerParts(licenseType, Big(slots), issuer, tail);
  }

  lemma ServerParts(licenseType: byte, slots: Quad, issuer: seq<byte>, tail: seq<byte>)
    ensures var b := [licenseType] + slots + issuer + [0] + tail;
            && |b| >= 5 && b[0] == licenseType && b[1..5] == slots && b[5..] == issuer + [0] + tail
  {
  }

  lemma DecodeEncodedContent(c: Content, tail: seq<byte>)
    ensures DecodeContent(Kind(c), EncodeContent(c) + tail) == GotContent(Seen(c), Surplus(c) + tail, false)
  {
    match c
    case Intermediate(dummy, issuer) => DecodeEncodedIntermediate(dummy, issuer, tail);
    case Server(licenseType, slots, issuer) => DecodeEncodedServer(licenseType, slots, issuer, tail);
    case Code(issuer) => LineOfTerminated(issuer, tail);
    case _ =>
      assert EncodeContent(c) + tail == tail && Surplus(c) + tail == tail;
  }

  lemma HeaderParts(key: Key, kind: byte, begin: Quad, end: Quad, tail: seq<byte>)
    ensures var b := Header(key, kind, begin, end) + tail;
            && b[0] == 0 && b[1..33] == key && b[33] == kind
            && b[34..38] == begin && b[38..42] == end && b[42..] == tail
  {
  }

  /** Reading behind a header. */
  lemma DecodeHeader(key: Key, kind: byte, begin: Quad, end: Quad, body: seq<byte>)
    requires DecodeContent(kind, body).GotContent?
    ensures var r := DecodeContent(kind, body);
            Decode(Header(key, kind, begin, end) + body) ==
            Got(License(key, FromStamp(FromBig(begin)), FromStamp(FromBig(end)), r.content), r.rest, r.open)
  {
    HeaderParts(key, kind, begin, end, body);
  }

  lemma DecodeEncoded(l: License, tail: seq<byte>)
    ensures Decode(Encode(l) + tail) ==
            Got(License(l.key, FromStamp(Stamp(l.begin)), FromStamp(Stamp(l.end)), Seen(l.content)),
                Surplus(l.content) + tail, false)
  {
    var begin, end := Big(Stamp(l.begin)), Big(Stamp(l.end));
    Joined(Header(l.key, Kind(l.content), begin, end), EncodeContent(l.content), tail);
    DecodeEncodedContent(l.content, tail);
    DecodeHeader(l.key, Kind(l.content), begin, end, EncodeContent(l.content) + tail);
    BigRoundTrip(Stamp(l.begin));
    BigRoundTrip(Stamp(l.end));
  }

  lemma Joined(a: seq<byte>, b: seq<byte>, c: seq<byte>)
    ensures a + b + c == a + (b + c)
  {
  }

  /** An entry that survives being written and read: no NUL in the issuer, representable times. */
  predicate Plain(l: License) {
    !HasNul(Issuer(l.content)) && Representable(l.begin) && Representable(l.end)
  }

  lemma PlainIffSeen(l: License)
    ensures Plain(l) <==> l == License(l.key, FromStamp(Stamp(l.begin)), FromStamp(Stamp(l.end)), Seen(l.content))
    ensures Plain(l) ==> Surplus(l.content) == []
  {
    StampRoundTrip(l.begin);
    StampRoundTrip(l.end);
    LineSplits(Issuer(l.content));
  }

  predicate AllPlain(c: seq<License>)
    ensures AllPlain(c) <==> forall i :: 0 <= i < |c| ==> Plain(c[i])
  {
    if c == [] then true
    else
      assert forall i :: 0 <= i < |c| ==> c[i] == ([c[0]] + c[1..])[i];
      Plain(c[0]) && AllPlain(c[1..])
  }

  /** The first entry comes back as it is exactly if it is plain, and then the rest is read next. */
  lemma FirstReadBack(c: seq<License>)
    requires c != []
    ensures var r := ReadAll(EncodeAll(c));
            && r.chain != [] && (r.chain[0] == c[0] <==> Plain(c[0]))
            && (Plain(c[0]) ==>
                var more := ReadAll(EncodeAll(c[1..]));
                r.chain[1..] == more.chain && r.error == more.error && r.open == more.open)
  {
    DecodeEncoded(c[0], EncodeAll(c[1..]));
    PlainIffSeen(c[0]);
    var rest := Surplus(c[0].content) + EncodeAll(c[1..]);
    var r := ReadAll(EncodeAll(c));
    assert r.chain == [Decode(EncodeAll(c)).license] + ReadAll(rest).chain;
    if Plain(c[0]) {
      assert rest == EncodeAll(c[1..]);
    }
  }

  lemma {:induction false} ReadAllEncoded(c: seq<License>)
    ensures ReadAll(EncodeAll(c)) == Entries(c, NoError, false) <==> AllPlain(c)
  {
    if c != [] {
      FirstReadBack(c);
      ReadAllEncoded(c[1..]);
      var r := ReadAll(EncodeAll(c)).chain;
      assert c == [c[0]] + c[1..] && r == [r[0]] + r[1..];
    }
  }

  /** Parsing an exported chain gives that chain back exactly if no issuer holds a NUL and every time is
      a whole second within 32 bits of the offset. */
  lemma ParseAfterExport(c: seq<License>, returnOnError: bool)
    ensures Parse(Export(c), returnOnError) == Parsed(c, NoError, false) <==> forall i :: 0 <= i < |c| ==> Plain(c[i])
  {
    assert Export(c)[1..] == EncodeAll(c);
    ReadAllEncoded(c);
  }

  // ------------------------------------------------------------------ export after parse

  function Closing(open: bool): seq<byte> {
    if open then [0] else []
  }

  lemma EncodeDecodedServer(b: seq<byte>)
    requires |b| >= 5
    ensures var r := DecodeContent(0x02, b); EncodeContent(r.content) + r.rest == b + Closing(r.open)
  {
    var r := DecodeContent(0x02, b);
    LineSplits(b[5..]);
    FromBigRoundTrip(b[1..5]);
    assert [b[0]] + b[1..5] + b[5..] == b;
    assert EncodeContent(r.content) == [b[0]] + b[1..5] + (Line(b[5..]) + [0]);
    assert Line(b[5..]) + [0] + r.rest == b[5..] + Closing(r.open);
  }

  lemma EncodeDecodedContent(kind: byte, b: seq<byte>)
    requires DecodeContent(kind, b).GotContent?
    ensures var r := DecodeContent(kind, b);
            Kind(r.content) == kind && EncodeContent(r.content) + r.rest == b + Closing(r.open)
  {
    var r := DecodeContent(kind, b);
    if kind == 0x00 {
      LineSplits(b[4..]);
      assert b == b[..4] + b[4..];
      assert Line(b[4..]) + [0] + r.rest == b[4..] + Closing(r.open);
    } else if kind == 0x02 {
      EncodeDecodedServer(b);
    } else if kind == 0x03 {
      LineSplits(b);
    } else {
      assert EncodeContent(r.content) == [];
    }
  }

  lemma HeaderOf(b: seq<byte>)
    requires |b| >= 42 && b[0] == 0
    ensures b == Header(b[1..33], b[33], b[34..38], b[38..42]) + b[42..]
  {
  }

  lemma EncodeDecoded(b: seq<byte>)
    requires Decode(b).Got?
    ensures var r := Decode(b); Encode(r.license) + r.rest == b + Closing(r.open)
  {
    var r := Decode(b);
    var begin, end, h := b[34..38], b[38..42], Header(b[1..33], b[33], b[34..38], b[38..42]);
    EncodeDecodedContent(b[33], b[42..]);
    FromBigRoundTrip(begin);
    FromBigRoundTrip(end);
    FromStampRoundTrip(FromBig(begin));
    FromStampRoundTrip(FromBig(end));
    HeaderOf(b);
    Joined(h, EncodeContent(r.license.content), r.rest);
    Joined(h, b[42..], Closing(r.open));
  }

  lemma {:induction false} EncodeAllRead(b: seq<byte>)
    requires ReadAll(b).error == NoError
    ensures EncodeAll(ReadAll(b).chain) == b + Closing(ReadAll(b).open)
    decreases |b|
  {
    match Decode(b)
    case Got(license, rest, open) =>
      EncodeDecoded(b);
      if open {
        EncodeFirst(license, []);
      } else {
        var more := ReadAll(rest);
        EncodeAllRead(rest);
        EncodeFirst(license, more.chain);
        Joined(Encode(license), rest, Closing(more.open));
      }
    case End =>
      assert EncodeAll([]) == [];
    case Bad(error) =>
  }

  lemma EncodeFirst(l: License, c: seq<License>)
    ensures EncodeAll([l] + c) == Encode(l) + EncodeAll(c)
    ensures c == [] ==> EncodeAll([l]) == Encode(l)
  {
    assert ([l] + c)[1..] == c;
    if c == [] {
      assert [l] + c == [l] && EncodeAll(c) == [];
    }
  }

  /** Exporting what was parsed from accepted bytes gives those bytes, and one NUL more exactly if the
      last issuer ran into the end of the input. */
  lemma ExportAfterParse(b: seq<byte>)
    requires Parse(b, false).Parsed?
    ensures Export(Parse(b, false).chain) == b + Closing(Parse(b, false).open)
  {
    EncodeAllRead(b[1..]);
    assert b == [1] + b[1..];
  }

  /** Whatever was accepted can be written and read again unchanged. */
  lemma {:induction false} ReadIsPlain(b: seq<byte>)
    ensures forall i :: 0 <= i < |ReadAll(b).chain| ==> Plain(ReadAll(b).chain[i])
    decreases |b|
  {
    match Decode(b)
    case Got(license, rest, open) =>
      FromStampRoundTrip(FromBig(b[34..38]));
      FromStampRoundTrip(FromBig(b[38..42]));
      assert Plain(license);
      ReadIsPlain(rest);
    case _ =>
  }

  /** One pass through parse and export reaches a fixed point: its bytes parse to the same chain, and
      that chain exports to the same bytes. */
  lemma ExportIsCanonical(b: seq<byte>, returnOnError: bool)
    requires Parse(b, returnOnError).Parsed?
    ensures var c := Parse(b, returnOnError).chain; Parse(Export(c), false) == Parsed(c, NoError, false)
  {
    ReadIsPlain(b[1..]);
    ParseAfterExport(Parse(b, returnOnError).chain, false);
  }

  // ------------------------------------------------------------------ where the round trip ends

  /** An issuer with a NUL makes a chain that exports to bytes its own parser rejects. */
  lemma NulIssuerIsRejected()
    ensures exists c: seq<License> :: |c| == 1 && !Plain(c[0]) && Parse(Export(c), false) == Rejected(ShortBlock)
  {
    var start: Time := TIMESTAMP_OFFSET * SECOND;
    var l := License(seq(32, _ => 0), start, start, Code([65, 0, 66]));
    var c := [l];
    assert HasNul([65, 0, 66]) by {
      assert [65, 0, 66][1..] == [0, 66];
    }
    DecodeEncoded(l, []);
    assert c[1..] == [] && EncodeAll(c) == Encode(l) + [];
    assert AfterLine([65, 0, 66]) == [66] by {
      assert [65, 0, 66][1..] == [0, 66];
      assert [0, 66][1..] == [66];
    }
    assert Surplus(l.content) + [] == [66, 0];
    assert ReadAll([66, 0]).error == ShortBlock;
    assert Export(c)[1..] == EncodeAll(c);
    assert Parse(Export(c), false) == Rejected(ShortBlock);
  }
}
