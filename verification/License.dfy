/** The license chain reader and writer on streams (License.cpp, lines 90-230 and 268-275), proved
    against the functions of LicenseSpec. */
module LicenseChains {
  import opened LicenseSpec

  // ------------------------------------------------------------------ streams

  class InputStream {
    const data: seq<byte>
    var pos: nat
    var eof: bool
    var fail: bool

    ghost predicate Valid()
      reads this
    {
      && pos <= |data|
      && (eof ==> pos == |data|)
      && (fail ==> eof)
    }

    function Rest(): seq<byte>
      requires Valid()
      reads this
    {
      data[pos..]
    }

    constructor (data: seq<byte>)
      ensures Valid() && Rest() == data && !eof && !fail
    {
      this.data := data;
      pos, eof, fail := 0, false, false;
    }

    /** readsome: as many of `n` bytes as there are; the end of the input is not noted. */
    method ReadSome(n: nat) returns (r: seq<byte>)
      requires Valid()
      modifies this`pos, this`fail
      ensures Valid() && (fail ==> old(eof))
      ensures r == if n <= |old(Rest())| then old(Rest())[..n] else old(Rest())
      ensures Rest() == old(Rest())[|r|..]
    {
      if eof {
        fail := true;
        return [];
      }
      var count := if n <= |data| - pos then n else |data| - pos;
      r := data[pos..pos + count];
      pos := pos + count;
    }

    /** getline up to NUL: the end of the input ends the line as well, and is noted. */
    method GetLine() returns (line: seq<byte>)
      requires Valid()
      modifies this
      ensures Valid()
      ensures line == Line(old(Rest())) && Rest() == AfterLine(old(Rest()))
      ensures eof <==> !HasNul(old(Rest()))
    {
      if eof {
        fail := true;
        return [];
      }
      line := [];
      ghost var whole := Rest();
      while pos < |data| && data[pos] != 0
        invariant pos <= |data| && !eof && !fail
        invariant Scanned(line, data[pos..], whole)
        decreases |data| - pos
      {
        ScanStep(line, data[pos..], whole);
        assert data[pos..][1..] == data[pos + 1..];
        line := line + [data[pos]];
        pos := pos + 1;
      }
      if pos == |data| {
        eof := true;
        fail := line == [];
      } else {
        assert data[pos..][1..] == data[pos + 1..];
        pos := pos + 1;
      }
    }
  }

  ghost predicate Scanned(line: seq<byte>, rest: seq<byte>, whole: seq<byte>) {
    line + Line(rest) == Line(whole) && AfterLine(rest) == AfterLine(whole) && HasNul(rest) == HasNul(whole)
  }

  lemma ScanStep(line: seq<byte>, rest: seq<byte>, whole: seq<byte>)
    requires Scanned(line, rest, whole) && rest != [] && rest[0] != 0
    ensures Scanned(line + [rest[0]], rest[1..], whole)
  {
    assert Line(rest) == [rest[0]] + Line(rest[1..]);
    assert line + [rest[0]] + Line(rest[1..]) == line + Line(rest);
  }

  class OutputStream {
    var data: seq<byte>

    constructor ()
      ensures data == []
    {
      data := [];
    }

    method Write(bytes: seq<byte>)
      modifies this
      ensures data == old(data) + bytes
    {
      data := data + bytes;
    }
  }

  // ------------------------------------------------------------------ entries

  /** What reading the content of a kind must leave: the decoded content, the bytes behind it, and the end of
      the input noted if the issuer ran into it. */
  ghost predicate ContentRead(kind: byte, before: seq<byte>, eof0: bool, content: Content, error: ReadError,
    rest: seq<byte>, eof: bool)
  {
    match DecodeContent(kind, before)
    case NoContent(e) => error == e
    case GotContent(c, r, open) =>
      error == NoError && content == c && rest == r && (open ==> eof) && (!eof0 && !open ==> !eof)
  }

  class LicenseEntry {
    var key: Key
    var begin: Time
    var end: Time
    var content: Content  // the fields of the subclass

    function Value(): License
      reads this
    {
      License(key, begin, end, content)
    }

    /** An entry of the subclass of `content`, with everything else at its default. */
    constructor (content: Content)
      ensures this.content == content
    {
      this.content := content;
      key, begin, end := seq(32, _ => 0), 0, 0;
    }

    method ReadContent(stream: InputStream) returns (error: ReadError)
      requires stream.Valid()
      modifies stream, `content
      ensures stream.Valid()
      ensures
        ContentRead(old(Kind(content)), old(stream.Rest()), old(stream.eof), content, error, stream.Rest(), stream.eof)
    {
      match content
      case Intermediate(_, _) =>
        error := ReadIntermediate(stream);
      case Server(_, _, _) =>
        error := ReadServer(stream);
      case Code(_) =>
        var issuer := stream.GetLine();
        content := Code(issuer);
        error := NoError;
      case LicenseSign =>
        error := NoError;
      case Ephemeral =>
        error := NoError;
    }

    method ReadIntermediate(stream: InputStream) returns (error: ReadError)
      requires stream.Valid()
      modifies stream, `content
      ensures stream.Valid()
      ensures ContentRead(0x00, old(stream.Rest()), old(stream.eof), content, error, stream.Rest(), stream.eof)
    {
      ghost var b := stream.Rest();
      var dummy := stream.ReadSome(4);
      if |dummy| != 4 {
        return ShortData;
      }
      assert b[..4] == dummy;
      var issuer := stream.GetLine();
      content := Intermediate(dummy, issuer);
      return NoError;
    }

    method ReadServer(stream: InputStream) returns (error: ReadError)
      requires stream.Valid()
      modifies stream, `content
      ensures stream.Valid()
      ensures ContentRead(0x02, old(stream.Rest()), old(stream.eof), content, error, stream.Rest(), stream.eof)
    {
      ghost var b := stream.Rest();
      var licenseType := stream.ReadSome(1);
      if |licenseType| != 1 {
        return NoServerType;
      }
      var slots := stream.ReadSome(4);
      if |slots| != 4 {
        return ShortData;
      }
      assert b[0] == licenseType[0] && b[1..5] == slots && b[1..][4..] == b[5..];
      var issuer := stream.GetLine();
      content := Server(licenseType[0], FromBig(slots), issuer);
      return NoError;
    }

    /** Only the server entry reports a failure, and it does so always. */
    method WriteContent(stream: OutputStream) returns (ok: bool)
      modifies stream
      ensures stream.data == old(stream.data) + EncodeContent(content)
      ensures ok <==> !content.Server?
    {
      match content
      case Intermediate(dummy, issuer) =>
        stream.Write(dummy);
        stream.Write(issuer);
        stream.Write([0]);
        return true;
      case Server(licenseType, slots, issuer) =>
        stream.Write([licenseType]);
        stream.Write(Big(slots));
        stream.Write(issuer);
        stream.Write([0]);
        return false;
      case Code(issuer) =>
        stream.Write(issuer);
        stream.Write([0]);
        return true;
      case LicenseSign =>
        return true;
      case Ephemeral =>
        return true;
    }

    method Write(stream: OutputStream) returns (ok: bool)
      modifies stream
      ensures stream.data == old(stream.data) + Encode(Value())
      ensures ok <==> !content.Server?
    {
      ghost var h := Header(key, Kind(content), Big(Stamp(begin)), Big(Stamp(end)));
      WriteHeader(stream);
      ok := WriteContent(stream);
      assert old(stream.data) + h + EncodeContent(content) == old(stream.data) + (h + EncodeContent(content));
    }

    method WriteHeader(stream: OutputStream)
      modifies stream
      ensures stream.data == old(stream.data) + Header(key, Kind(content), Big(Stamp(begin)), Big(Stamp(end)))
    {
      stream.Write([0]);
      stream.Write(key);
      stream.Write([Kind(content)]);
      var times := Big(Stamp(begin)) + Big(Stamp(end));
      stream.Write(times);
      HeaderAppends(old(stream.data), key, Kind(content), Big(Stamp(begin)), Big(Stamp(end)));
    }
  }

  lemma HeaderAppends(data: seq<byte>, key: Key, kind: byte, begin: Quad, end: Quad)
    ensures data + [0] + key + [kind] + (begin + end) == data + Header(key, kind, begin, end)
  {
  }

  /** The subclass chosen for a type byte. */
  method NewEntry(kind: byte) returns (entry: LicenseEntry?)
    ensures entry == null <==> kind !in {0x00, 0x02, 0x03, 0x05, 0x20}
    ensures entry != null ==> fresh(entry) && Kind(entry.content) == kind
  {
    if kind == 0x00 {
      entry := new LicenseEntry(Intermediate([0, 0, 0, 0], []));
    } else if kind == 0x02 {
      entry := new LicenseEntry(Server(0, 0, []));
    } else if kind == 0x03 {
      entry := new LicenseEntry(Code([]));
    } else if kind == 0x05 {
      entry := new LicenseEntry(LicenseSign);
    } else if kind == 0x20 {
      entry := new LicenseEntry(Ephemeral);
    } else {
      entry := null;
    }
  }

  method Read(stream: InputStream) returns (entry: LicenseEntry?, error: ReadError)
    requires stream.Valid()
    modifies stream
    ensures stream.Valid()
    ensures
      match Decode(old(stream.Rest()))
      case End => entry == null && error == NoError && stream.eof == old(stream.eof)
      case Bad(e) => entry == null && error == e
      case Got(license, rest, open) =>
        && entry != null && fresh(entry) && error == NoError && entry.Value() == license
        && stream.Rest() == rest && stream.eof == open
  {
    ghost var b := stream.Rest();
    var buffer := stream.ReadSome(42);
    if |buffer| != 42 {
      if |buffer| == 0 {
        return null, NoError;
      }
      return null, ShortBlock;
    }
    assert buffer == b[..42];
    if buffer[0] != 0 {
      return null, InvalidEntryType(buffer[0]);
    }
    entry := NewEntry(buffer[33]);
    if entry == null {
      return null, InvalidLicenseType(buffer[33]);
    }
    entry.key := buffer[1..33];
    entry.begin := FromStamp(FromBig(buffer[34..38]));
    entry.end := FromStamp(FromBig(buffer[38..42]));
    assert buffer[1..33] == b[1..33] && buffer[34..38] == b[34..38] && buffer[38..42] == b[38..42];
    error := entry.ReadContent(stream);
    if error != NoError {
      entry := null;
    }
  }

  // ------------------------------------------------------------------ chains

  ghost function Values(entries: seq<LicenseEntry>): (r: seq<License>)
    reads entries
    ensures |r| == |entries|
    ensures forall i :: 0 <= i < |entries| ==> r[i] == entries[i].Value()
  {
    seq(|entries|, i requires 0 <= i < |entries| reads entries => entries[i].Value())
  }

  lemma ValuesAppend(entries: seq<LicenseEntry>, entry: LicenseEntry)
    ensures Values(entries + [entry]) == Values(entries) + [entry.Value()]
  {
  }

  class LicenseChain {
    var entries: seq<LicenseEntry>

    constructor (entries: seq<LicenseEntry>)
      ensures this.entries == entries
    {
      this.entries := entries;
    }

    method ExportChain() returns (data: seq<byte>)
      ensures data == Export(Values(entries))
    {
      var stream := new OutputStream();
      stream.Write([1]);
      ghost var values := Values(entries);
      var i := 0;
      while i < |entries|
        invariant 0 <= i <= |entries| && fresh(stream)
        invariant stream.data == [1] + EncodeAll(values[..i])
        modifies stream
      {
        var ok := entries[i].Write(stream);
        ExportStep(values, i);
        i := i + 1;
      }
      assert values[..i] == values;
      data := stream.data;
    }
  }

  lemma ExportStep(values: seq<License>, i: nat)
    requires i < |values|
    ensures [1] + EncodeAll(values[..i + 1]) == [1] + EncodeAll(values[..i]) + Encode(values[i])
  {
    assert values[..i + 1] == values[..i] + [values[i]];
    EncodeAllAppend(values[..i], values[i]);
  }

  /** What is left to read completes the entries read so far to the whole chain. */
  ghost predicate Pending(done: seq<License>, eof: bool, rest: seq<byte>, whole: Entries) {
    match whole
    case Entries(chain, error, open) =>
      if eof then done == chain && error == NoError && open && rest == []
      else done + ReadAll(rest).chain == chain && error == ReadAll(rest).error && open == ReadAll(rest).open
  }

  lemma PendingGot(done: seq<License>, rest: seq<byte>, whole: Entries)
    requires Pending(done, false, rest, whole) && Decode(rest).Got?
    ensures var r := Decode(rest); Pending(done + [r.license], r.open, r.rest, whole)
  {
    var r := Decode(rest);
    if !r.open {
      assert done + ([r.license] + ReadAll(r.rest).chain) == done + [r.license] + ReadAll(r.rest).chain;
    }
  }

  lemma PendingStops(done: seq<License>, eof: bool, rest: seq<byte>, whole: Entries)
    requires Pending(done, eof, rest, whole) && !Decode(rest).Got?
    ensures whole == Entries(done, if Decode(rest).Bad? then Decode(rest).error else NoError, eof)
  {
  }

  method ParseStream(stream: InputStream, returnOnError: bool) returns (chain: LicenseChain?, error: ReadError)
    requires stream.Valid()
    modifies stream
    ensures stream.Valid()
    ensures
      match Parse(old(stream.Rest()), returnOnError)
      case Rejected(e) => chain == null && error == e
      case Parsed(c, e, open) => chain != null && fresh(chain) && Values(chain.entries) == c && error == e
  {
    error := NoError;
    ghost var b := stream.Rest();
    var chainType := stream.ReadSome(1);
    if |chainType| != 1 {
      return null, InvalidStreamLength;
    }
    if chainType[0] != 1 {
      return null, InvalidChainType(chainType[0]);
    }
    var entries: seq<LicenseEntry>;
    entries, error := ReadEntries(stream);
    if error != NoError && !returnOnError {
      return null, error;
    }
    chain := new LicenseChain(entries);
  }

  /** One round of the loop: another entry, or the whole chain is read. */
  method ReadRound(stream: InputStream, entries: seq<LicenseEntry>, ghost whole: Entries)
    returns (entry: LicenseEntry?, error: ReadError)
    requires stream.Valid() && Pending(Values(entries), stream.eof, stream.Rest(), whole)
    modifies stream
    ensures stream.Valid()
    ensures entry == null ==> whole.chain == Values(entries) && whole.error == error && (whole.open ==> stream.eof)
    ensures entry != null ==>
      && fresh(entry) && error == NoError && Pending(Values(entries + [entry]), stream.eof, stream.Rest(), whole)
      && |stream.Rest()| < |old(stream.Rest())|
  {
    ghost var done, eof, rest := Values(entries), stream.eof, stream.Rest();
    entry, error := Read(stream);
    if entry == null {
      PendingStops(done, eof, rest, whole);
    } else {
      PendingGot(done, rest, whole);
      ValuesAppend(entries, entry);
    }
  }

  /** The loop of parse: entries up to the end or the first error. */
  method ReadEntries(stream: InputStream) returns (entries: seq<LicenseEntry>, error: ReadError)
    requires stream.Valid() && !stream.eof
    modifies stream
    ensures stream.Valid()
    ensures
      match ReadAll(old(stream.Rest()))
      case Entries(c, e, open) =>
        && error == e && fresh(entries) && Values(entries) == c && (open ==> stream.eof)
  {
    error, entries := NoError, [];
    ghost var whole := ReadAll(stream.Rest());
    while !stream.fail
      modifies stream
      invariant stream.Valid() && error == NoError
      invariant fresh(entries) && Pending(Values(entries), stream.eof, stream.Rest(), whole)
      decreases |stream.Rest()|
    {
      var entry;
      entry, error := ReadRound(stream, entries, whole);
      if entry == null {
        break;
      }
      entries := entries + [entry];
    }
  }
}
