/** Multipart form data of MultipartFormData.swift: the in-memory encoder and the streaming writer, both
    proved against the layout of section 5.1.1 of RFC 2046. */
module Multipart {
  import opened Bytes

  const CR: byte := 13
  const CRLF: seq<byte> := [13, 10]
  const DASHES: seq<byte> := [45, 45]
  const COLON: seq<byte> := [58, 32]

  // ---- The layout of the standard -------------------------------------------------------------------------

  function DashBoundary(boundary: seq<byte>): seq<byte> {
    DASHES + boundary
  }

  function Delimiter(boundary: seq<byte>): seq<byte> {
    CRLF + DashBoundary(boundary)
  }

  /** Every further part behind a delimiter line, then the closing delimiter. */
  function Encapsulations(boundary: seq<byte>, parts: seq<seq<byte>>): seq<byte> {
    if parts == [] then Delimiter(boundary) + DASHES
    else Delimiter(boundary) + CRLF + parts[0] + Encapsulations(boundary, parts[1..])
  }

  /** A multipart body without preamble, and with an empty epilogue behind its CRLF. */
  function MultipartBody(boundary: seq<byte>, parts: seq<seq<byte>>): seq<byte>
    requires parts != []
  {
    DashBoundary(boundary) + CRLF + parts[0] + Encapsulations(boundary, parts[1..]) + CRLF
  }

  // ---- What the encoders emit ------------------------------------------------------------------------------

  datatype BoundaryType = InitialBoundary | EncapsulatedBoundary | FinalBoundary

  function BoundaryData(t: BoundaryType, boundary: seq<byte>): seq<byte> {
    match t
    case InitialBoundary => DASHES + boundary + CRLF
    case EncapsulatedBoundary => CRLF + DASHES + boundary + CRLF
    case FinalBoundary => CRLF + DASHES + boundary + DASHES + CRLF
  }

  datatype Header = Header(name: seq<byte>, value: seq<byte>)

  function HeaderLines(headers: seq<Header>): seq<byte> {
    if headers == [] then [] else headers[0].name + COLON + headers[0].value + CRLF + HeaderLines(headers[1..])
  }

  function HeaderData(headers: seq<Header>): seq<byte> {
    HeaderLines(headers) + CRLF
  }

  /** A body part as the encoders see it; `fails` when reading its stream fails before its end. */
  datatype Part = Part(headers: seq<Header>, content: seq<byte>, fails: bool, contentLength: nat, initial: bool, final: bool)

  /** A body part in the sense of the standard: its header lines, an empty line, its content. */
  function Section(p: Part): seq<byte> {
    HeaderData(p.headers) + p.content
  }

  function PartData(boundary: seq<byte>, p: Part): seq<byte> {
    BoundaryData(if p.initial then InitialBoundary else EncapsulatedBoundary, boundary) + Section(p)
    + (if p.final then BoundaryData(FinalBoundary, boundary) else [])
  }

  function PartsData(boundary: seq<byte>, parts: seq<Part>): seq<byte> {
    if parts == [] then [] else PartsData(boundary, parts[..|parts| - 1]) + PartData(boundary, parts[|parts| - 1])
  }

  /** The flags both encoders set first. */
  function Marked(parts: seq<Part>): (r: seq<Part>)
    ensures |r| == |parts|
  {
    if parts == [] then []
    else
      var p := parts[0 := parts[0].(initial := true)];
      p[|p| - 1 := p[|p| - 1].(final := true)]
  }

  predicate Readable(p: Part) { !p.fails }

  predicate Encodable(p: Part) { !p.fails && |p.content| == p.contentLength }

  // ---- The emitted bytes are the layout ---------------------------------------------------------------------

  /** No part carries a flag from an earlier encoding. */
  predicate Fresh(parts: seq<Part>) {
    forall i | 0 <= i < |parts| :: !parts[i].initial && !parts[i].final
  }

  function Sections(parts: seq<Part>): (r: seq<seq<byte>>)
    ensures |r| == |parts| && forall i | 0 <= i < |parts| :: r[i] == Section(parts[i])
  {
    seq(|parts|, i requires 0 <= i < |parts| => Section(parts[i]))
  }

  lemma MiddleData(boundary: seq<byte>, p: Part)
    requires !p.initial
    ensures PartData(boundary, p) == Delimiter(boundary) + CRLF + Section(p)
              + (if p.final then Delimiter(boundary) + DASHES + CRLF else [])
  {
    assert BoundaryData(EncapsulatedBoundary, boundary) == Delimiter(boundary) + CRLF;
    assert BoundaryData(FinalBoundary, boundary) == Delimiter(boundary) + DASHES + CRLF;
  }

  /** The data of parts taken from the front. */
  lemma {:induction false} PartsDataFront(boundary: seq<byte>, parts: seq<Part>)
    requires parts != []
    ensures PartsData(boundary, parts) == PartData(boundary, parts[0]) + PartsData(boundary, parts[1..])
  {
    hide PartData;
    var n := |parts| - 1;
    if n > 0 {
      PartsDataFront(boundary, parts[..n]);
      assert parts[..n][1..] == parts[1..][..n - 1];
      Assoc(PartData(boundary, parts[0]), PartsData(boundary, parts[1..][..n - 1]), PartData(boundary, parts[n]));
    } else {
      assert PartsData(boundary, parts[..0]) == [] && PartsData(boundary, parts[1..]) == [];
    }
  }

  lemma Assoc(a: seq<byte>, b: seq<byte>, c: seq<byte>)
    ensures a + b + c == a + (b + c)
  {}

  lemma EncapsulationsStep(boundary: seq<byte>, parts: seq<Part>)
    requires parts != []
    ensures Encapsulations(boundary, Sections(parts))
         == Delimiter(boundary) + CRLF + Section(parts[0]) + Encapsulations(boundary, Sections(parts[1..]))
  {
    assert Sections(parts)[1..] == Sections(parts[1..]);
    hide Delimiter, Section;
  }

  lemma NoParts(boundary: seq<byte>, parts: seq<Part>)
    requires |parts| == 1
    ensures PartsData(boundary, parts[1..]) == []
    ensures Encapsulations(boundary, Sections(parts[1..])) == Delimiter(boundary) + DASHES
  {
    assert parts[1..] == [];
  }

  lemma {:induction false} LaterPartsLayout(boundary: seq<byte>, parts: seq<Part>)
    requires parts != [] && parts[|parts| - 1].final
    requires forall i | 0 <= i < |parts| :: !parts[i].initial
    requires forall i | 0 <= i < |parts| - 1 :: !parts[i].final
    ensures PartsData(boundary, parts) == Encapsulations(boundary, Sections(parts)) + CRLF
  {
    hide PartsData, Section, PartData, Sections, Delimiter, Encapsulations;
    PartsDataFront(boundary, parts);
    MiddleData(boundary, parts[0]);
    EncapsulationsStep(boundary, parts);
    var line, rest := Delimiter(boundary) + CRLF + Section(parts[0]), Encapsulations(boundary, Sections(parts[1..]));
    if |parts| > 1 {
      LaterPartsLayout(boundary, parts[1..]);
      GlueTail(PartData(boundary, parts[0]), PartsData(boundary, parts[1..]), line, rest);
    } else {
      NoParts(boundary, parts);
      GlueLast(PartData(boundary, parts[0]), line, rest);
    }
  }

  lemma GlueTail(first: seq<byte>, tail: seq<byte>, line: seq<byte>, rest: seq<byte>)
    requires first == line + [] && tail == rest + CRLF
    ensures first + tail == line + rest + CRLF
  {}

  lemma GlueLast(first: seq<byte>, line: seq<byte>, rest: seq<byte>)
    requires first == line + (rest + CRLF)
    ensures first + [] == line + rest + CRLF
  {}

  lemma NothingBehind(s: seq<byte>)
    ensures s + [] == s
  {}

  lemma MarkedFlags(parts: seq<Part>)
    requires parts != [] && Fresh(parts)
    ensures var m := Marked(parts);
            && m[0].initial && m[|m| - 1].final
            && (forall i | 1 <= i < |m| :: !m[i].initial)
            && (forall i | 0 <= i < |m| - 1 :: !m[i].final)
            && Sections(m) == Sections(parts)
  {}

  lemma FirstPartLayout(boundary: seq<byte>, p: Part)
    requires p.initial
    ensures PartData(boundary, p) == DashBoundary(boundary) + CRLF + Section(p)
              + (if p.final then Delimiter(boundary) + DASHES + CRLF else [])
  {
    assert BoundaryData(InitialBoundary, boundary) == DashBoundary(boundary) + CRLF;
    assert BoundaryData(FinalBoundary, boundary) == Delimiter(boundary) + DASHES + CRLF;
  }

  /** For parts not encoded before, the emitted bytes are exactly a multipart body of their sections. */
  lemma EmitsLayout(boundary: seq<byte>, parts: seq<Part>)
    requires parts != [] && Fresh(parts)
    ensures PartsData(boundary, Marked(parts)) == MultipartBody(boundary, Sections(parts))
  {
    hide Marked, PartsData, PartData, Section, Sections, Delimiter, DashBoundary, Encapsulations;
    var m := Marked(parts);
    MarkedFlags(parts);
    PartsDataFront(boundary, m);
    SectionsTail(m);
    FirstPartLayout(boundary, m[0]);
    var line, rest := DashBoundary(boundary) + CRLF + Sections(parts)[0], Encapsulations(boundary, Sections(parts)[1..]);
    if |m| > 1 {
      LaterPartsLayout(boundary, m[1..]);
      GlueTail(PartData(boundary, m[0]), PartsData(boundary, m[1..]), line, rest);
    } else {
      NoParts(boundary, m);
      GlueLast(PartData(boundary, m[0]), line, rest);
    }
  }

  lemma SectionsTail(parts: seq<Part>)
    requires parts != []
    ensures Sections(parts)[1..] == Sections(parts[1..])
  {
    hide Section;
  }

  // ---- The layout determines its parts -------------------------------------------------------------------------

  predicate OccursAt(d: seq<byte>, s: seq<byte>, k: nat) {
    k + |d| <= |s| && s[k..k + |d|] == d
  }

  ghost predicate Occurs(d: seq<byte>, s: seq<byte>) {
    exists k :: 0 <= k <= |s| && OccursAt(d, s, k)
  }

  lemma EarlyOccurrence(d: seq<byte>, x: seq<byte>, r: seq<byte>, k: nat)
    requires OccursAt(d, x + r, k) && k + |d| <= |x|
    ensures Occurs(d, x)
  {
    assert (x + r)[k..k + |d|] == x[k..k + |d|];
    assert OccursAt(d, x, k);
  }

  lemma OverlappingOccurrence(d: seq<byte>, x: seq<byte>, r: seq<byte>, k: nat)
    requires OccursAt(d, x + (d + r), k) && k < |x| < k + |d|
    ensures d[|x| - k] == d[0]
  {
    var s := x + (d + r);
    assert s[k..k + |d|][|x| - k] == s[|x|] == d[0];
  }

  /** The first delimiter behind a section free of it is the one that ends the section: a delimiter has
      its only CR in front, so no earlier occurrence can reach into it. */
  lemma FirstOccurrence(boundary: seq<byte>, x: seq<byte>, rest: seq<byte>, k: nat)
    requires CR !in boundary && !Occurs(Delimiter(boundary), x)
    requires OccursAt(Delimiter(boundary), x + (Delimiter(boundary) + rest), k)
    ensures k >= |x|
  {
    var d := Delimiter(boundary);
    assert d[0] == CR;
    hide Occurs, OccursAt;
    if k < |x| && k + |d| <= |x| {
      EarlyOccurrence(d, x, d + rest, k);
    } else if k < |x| {
      NoInnerReturn(boundary, |x| - k);
      OverlappingOccurrence(d, x, rest, k);
    }
  }

  lemma NoInnerReturn(boundary: seq<byte>, i: nat)
    requires CR !in boundary && 0 < i < |Delimiter(boundary)|
    ensures Delimiter(boundary)[i] != CR
  {
    if i >= 4 { assert Delimiter(boundary)[i] == boundary[i - 4]; }
  }

  lemma Behind(x: seq<byte>, d: seq<byte>, r: seq<byte>)
    ensures OccursAt(d, x + (d + r), |x|)
  {
    assert (x + (d + r))[|x|..|x| + |d|] == d;
  }

  lemma {:induction false} EncapsulationsStart(boundary: seq<byte>, parts: seq<seq<byte>>) returns (rest: seq<byte>)
    ensures Encapsulations(boundary, parts) == Delimiter(boundary) + rest
    ensures rest == if parts == [] then DASHES else CRLF + parts[0] + Encapsulations(boundary, parts[1..])
  {
    hide Delimiter;
    rest := if parts == [] then DASHES else CRLF + parts[0] + Encapsulations(boundary, parts[1..]);
    if parts != [] {
      assert Delimiter(boundary) + CRLF + parts[0] + Encapsulations(boundary, parts[1..]) == Delimiter(boundary) + rest;
    }
  }

  lemma SplitEqual(a: seq<byte>, b: seq<byte>, c: seq<byte>, d: seq<byte>)
    requires |a| == |c| && a + b == c + d
    ensures a == c && b == d
  {
    assert (a + b)[..|a|] == a && (c + d)[..|a|] == c;
    assert (a + b)[|a|..] == b && (c + d)[|a|..] == d;
  }

  ghost predicate FreeOfDelimiter(boundary: seq<byte>, parts: seq<seq<byte>>) {
    forall i | 0 <= i < |parts| :: !Occurs(Delimiter(boundary), parts[i])
  }

  /** The first section ends at the same place in both. */
  lemma FirstSectionDetermined(boundary: seq<byte>, x: seq<byte>, r: seq<byte>, y: seq<byte>, t: seq<byte>)
    requires CR !in boundary && !Occurs(Delimiter(boundary), x) && !Occurs(Delimiter(boundary), y)
    requires x + (Delimiter(boundary) + r) == y + (Delimiter(boundary) + t)
    ensures x == y && r == t
  {
    var d := Delimiter(boundary);
    Behind(x, d, r);
    Behind(y, d, t);
    FirstOccurrence(boundary, x, r, |y|);
    FirstOccurrence(boundary, y, t, |x|);
    hide Delimiter, Occurs, OccursAt;
    SplitEqual(x, d + r, y, d + t);
    SplitEqual(d, r, d, t);
  }

  /** A section and everything behind it determine the section and the sections behind it. */
  lemma {:induction false} TailsDetermine(boundary: seq<byte>, x: seq<byte>, ps: seq<seq<byte>>, y: seq<byte>, qs: seq<seq<byte>>)
    requires CR !in boundary && !Occurs(Delimiter(boundary), x) && !Occurs(Delimiter(boundary), y)
    requires FreeOfDelimiter(boundary, ps) && FreeOfDelimiter(boundary, qs)
    requires x + Encapsulations(boundary, ps) == y + Encapsulations(boundary, qs)
    ensures x == y && ps == qs
    decreases |ps|
  {
    hide Delimiter, Occurs, Encapsulations;
    var r := EncapsulationsStart(boundary, ps);
    var t := EncapsulationsStart(boundary, qs);
    FirstSectionDetermined(boundary, x, r, y, t);
    RestsDetermine(boundary, ps, qs, r);
    if ps != [] {
      var p, q := ps[0] + Encapsulations(boundary, ps[1..]), qs[0] + Encapsulations(boundary, qs[1..]);
      Assoc(CRLF, ps[0], Encapsulations(boundary, ps[1..]));
      Assoc(CRLF, qs[0], Encapsulations(boundary, qs[1..]));
      SplitEqual(CRLF, p, CRLF, q);
      TailsDetermine(boundary, ps[0], ps[1..], qs[0], qs[1..]);
      assert ps == [ps[0]] + ps[1..] && qs == [qs[0]] + qs[1..];
    }
  }

  /** What follows a delimiter tells whether it was the closing one. */
  lemma RestsDetermine(boundary: seq<byte>, ps: seq<seq<byte>>, qs: seq<seq<byte>>, r: seq<byte>)
    requires r == if ps == [] then DASHES else CRLF + ps[0] + Encapsulations(boundary, ps[1..])
    requires r == if qs == [] then DASHES else CRLF + qs[0] + Encapsulations(boundary, qs[1..])
    ensures ps == [] <==> qs == []
  {
    hide Encapsulations;
    assert ps != [] ==> r[0] == CR;
    assert qs != [] ==> r[0] == CR;
  }

  /** Two lists of sections in none of which the delimiter occurs have the same multipart body only when
      they are the same list: a receiver can recover the sections. */
  lemma BodyDeterminesSections(boundary: seq<byte>, ps: seq<seq<byte>>, qs: seq<seq<byte>>)
    requires ps != [] && qs != [] && CR !in boundary
    requires FreeOfDelimiter(boundary, ps) && FreeOfDelimiter(boundary, qs)
    requires MultipartBody(boundary, ps) == MultipartBody(boundary, qs)
    ensures ps == qs
  {
    hide Encapsulations, DashBoundary, Occurs;
    var front := DashBoundary(boundary) + CRLF;
    var a, b := ps[0] + Encapsulations(boundary, ps[1..]), qs[0] + Encapsulations(boundary, qs[1..]);
    assert MultipartBody(boundary, ps) == front + (a + CRLF);
    assert MultipartBody(boundary, qs) == front + (b + CRLF);
    SplitEqual(front, a + CRLF, front, b + CRLF);
    SplitEqual(a, CRLF, b, CRLF);
    TailsDetermine(boundary, ps[0], ps[1..], qs[0], qs[1..]);
    assert ps == [ps[0]] + ps[1..] && qs == [qs[0]] + qs[1..];
  }

  // ---- Streams ------------------------------------------------------------------------------------------------------

  /** `sizes` are the lengths the stream chooses to deliver, `failAt` where reading fails, `endUnknown`
      whether only a read finds out that nothing is left. */
  class InputStream {
    const content: seq<byte>
    const failAt: Option<nat>
    const endUnknown: bool
    var sizes: seq<nat>
    var offset: nat

    predicate Fails() {
      failAt.Some? && failAt.value < |content|
    }

    function Limit(): nat {
      if Fails() then failAt.value else |content|
    }

    ghost predicate Valid()
      reads this
    {
      offset <= Limit()
    }

    constructor (content: seq<byte>, sizes: seq<nat>, failAt: Option<nat>, endUnknown: bool)
      ensures Valid() && offset == 0
      ensures this.content == content && this.failAt == failAt && this.endUnknown == endUnknown && this.sizes == sizes
    {
      this.content, this.failAt, this.endUnknown := content, failAt, endUnknown;
      this.sizes := sizes;
      offset := 0;
    }

    function HasBytesAvailable(): bool
      reads this
    {
      offset < |content| || endUnknown
    }

    /** Any positive number of bytes up to `max`, as long as there are any. */
    method Read(max: nat) returns (data: seq<byte>, error: bool)
      requires Valid() && max > 0
      modifies this
      ensures Valid()
      ensures error <==> Fails() && old(offset) == Limit()
      ensures error ==> offset == old(offset)
      ensures !error ==> offset == old(offset) + |data| && offset <= |content| && data == content[old(offset)..offset]
      ensures !error ==> |data| <= max && (|data| == 0 <==> old(offset) == Limit())
    {
      if Fails() && offset == Limit() { return [], true; }
      var n := max;
      if sizes != [] {
        if 1 <= sizes[0] < max { n := sizes[0]; }
        sizes := sizes[1..];
      }
      if n > Limit() - offset { n := Limit() - offset; }
      data, error := content[offset..offset + n], false;
      offset := offset + n;
    }
  }

  /** `limit` bounds what the stream accepts. Beyond it either no space is available any more (`silent`)
      or writing reports an error. `sizes` are the lengths of its short writes. */
  class OutputStream {
    const limit: Option<nat>
    const silent: bool
    var sizes: seq<nat>
    var written: seq<byte>

    ghost predicate Valid()
      reads this
    {
      limit.Some? ==> |written| <= limit.value
    }

    constructor (limit: Option<nat>, silent: bool, sizes: seq<nat>)
      ensures Valid() && written == [] && this.limit == limit && this.silent == silent && this.sizes == sizes
    {
      this.limit, this.silent := limit, silent;
      this.sizes, written := sizes, [];
    }

    function Full(): bool
      reads this
    {
      limit.Some? && |written| >= limit.value
    }

    function HasSpaceAvailable(): bool
      reads this
    {
      !(silent && Full())
    }

    /** A positive number of bytes from the front of `data`. */
    method Write(data: seq<byte>) returns (n: nat, error: bool)
      requires Valid() && data != []
      modifies this
      ensures Valid()
      ensures error <==> old(Full())
      ensures error ==> written == old(written)
      ensures !error ==> 0 < n <= |data| && written == old(written) + data[..n]
    {
      if Full() { return 0, true; }
      n, error := |data|, false;
      if sizes != [] {
        if 1 <= sizes[0] < n { n := sizes[0]; }
        sizes := sizes[1..];
      }
      if limit.Some? && n > limit.value - |written| { n := limit.value - |written|; }
      written := written + data[..n];
    }
  }

  // ---- Sinks: what writing a string leaves in an output stream ----------------------------------------------------------

  function Kept(s: seq<byte>, limit: Option<nat>): seq<byte> {
    if limit.Some? && limit.value < |s| then s[..limit.value] else s
  }

  /** Whether all of `s` counts as written. */
  predicate Accepted(s: seq<byte>, limit: Option<nat>, silent: bool) {
    silent || limit.None? || |s| <= limit.value
  }

  lemma KeptTwice(a: seq<byte>, b: seq<byte>, limit: Option<nat>)
    ensures Kept(Kept(a, limit) + b, limit) == Kept(a + b, limit)
  {
    if limit.Some? && limit.value < |a| {
      assert (a + b)[..limit.value] == a[..limit.value];
      assert (a[..limit.value] + b)[..limit.value] == a[..limit.value];
    }
  }

  // ---- The encoders ---------------------------------------------------------------------------------------------------

  class BodyPart {
    const headers: seq<Header>
    const bodyStream: InputStream
    const bodyContentLength: nat
    var hasInitialBoundary: bool
    var hasFinalBoundary: bool

    function View(): Part
      reads this
    {
      Part(headers, bodyStream.content, bodyStream.Fails(), bodyContentLength, hasInitialBoundary, hasFinalBoundary)
    }

    constructor (headers: seq<Header>, bodyStream: InputStream, bodyContentLength: nat)
      ensures View() == Part(headers, bodyStream.content, bodyStream.Fails(), bodyContentLength, false, false)
      ensures this.bodyStream == bodyStream
    {
      this.headers, this.bodyStream, this.bodyContentLength := headers, bodyStream, bodyContentLength;
      hasInitialBoundary, hasFinalBoundary := false, false;
    }
  }

  /** The loop over the buffer in `write(_:to:)`. */
  method WriteBuffer(data: seq<byte>, out: OutputStream) returns (ok: bool)
    requires out.Valid()
    modifies out
    ensures out.Valid()
    ensures out.written == Kept(old(out.written) + data, out.limit)
    ensures ok <==> Accepted(old(out.written) + data, out.limit, out.silent)
  {
    ghost var all := out.written + data;
    var buffer := data;
    while |buffer| > 0 && out.HasSpaceAvailable()
      invariant out.Valid() && out.written + buffer == all
      decreases |buffer|
    {
      var n, error := out.Write(buffer);
      if error { return false; }
      buffer := buffer[n..];
    }
    ok := true;
  }

  /** `encodeBodyStream`; None when reading fails or the length is not the announced one. */
  method EncodeBodyStream(p: BodyPart, bufferSize: nat) returns (r: Option<seq<byte>>)
    requires p.bodyStream.Valid() && p.bodyStream.offset == 0 && bufferSize > 0
    modifies p.bodyStream
    ensures r == if Encodable(p.View()) then Some(p.View().content) else None
  {
    var input := p.bodyStream;
    var encoded: seq<byte> := [];
    while input.HasBytesAvailable()
      invariant input.Valid() && encoded == input.content[..input.offset]
      decreases input.Limit() - input.offset
    {
      var data, error := input.Read(bufferSize);
      if error { return None; }
      if |data| == 0 { break; }
      encoded := encoded + data;
    }
    assert encoded == input.content && !input.Fails();
    if |encoded| != p.bodyContentLength { return None; }
    r := Some(encoded);
  }

  /** The bytes written so far, `at` bytes into `content`. */
  ghost predicate Writing(was: seq<byte>, content: seq<byte>, at: nat, written: seq<byte>, limit: Option<nat>, silent: bool) {
    && at <= |content|
    && written == Kept(was + content[..at], limit)
    && Accepted(was + content[..at], limit, silent)
  }

  lemma WritingStarts(was: seq<byte>, content: seq<byte>, limit: Option<nat>, silent: bool)
    requires limit.Some? ==> |was| <= limit.value
    ensures Writing(was, content, 0, was, limit, silent)
  {
    assert was + content[..0] == was;
  }

  /** One chunk more, and where a failing write leaves the stream. */
  lemma WritingGoesOn(was: seq<byte>, content: seq<byte>, at: nat, now: nat, written: seq<byte>, limit: Option<nat>, silent: bool)
    requires at <= now <= |content| && Writing(was, content, at, written, limit, silent)
    ensures Kept(written + content[at..now], limit) == Kept(was + content[..now], limit)
    ensures Accepted(written + content[at..now], limit, silent) <==> Accepted(was + content[..now], limit, silent)
    ensures !Accepted(was + content[..now], limit, silent) ==>
              Kept(was + content[..now], limit) == Kept(was + content, limit) && !Accepted(was + content, limit, silent)
  {
    KeptTwice(was + content[..at], content[at..now], limit);
    assert was + content[..at] + content[at..now] == was + content[..now];
    assert was + content == was + content[..now] + content[now..];
    if !Accepted(was + content[..now], limit, silent) { KeptShort(was + content[..now], content[now..], limit); }
  }

  lemma KeptShort(a: seq<byte>, b: seq<byte>, limit: Option<nat>)
    requires limit.Some? && |a| > limit.value
    ensures Kept(a + b, limit) == Kept(a, limit)
  {
    assert (a + b)[..limit.value] == a[..limit.value];
  }

  /** `writeBodyStream`: no length is checked. */
  method WriteBodyStream(p: BodyPart, bufferSize: nat, out: OutputStream) returns (ok: bool)
    requires p.bodyStream.Valid() && p.bodyStream.offset == 0 && bufferSize > 0 && out.Valid()
    modifies p.bodyStream, out
    ensures out.Valid()
    ensures ok <==> Readable(p.View()) && Accepted(old(out.written) + p.View().content, out.limit, out.silent)
    ensures Readable(p.View()) ==> out.written == Kept(old(out.written) + p.View().content, out.limit)
  {
    var input := p.bodyStream;
    ghost var was := out.written;
    WritingStarts(was, input.content, out.limit, out.silent);
    while input.HasBytesAvailable()
      invariant input.Valid() && out.Valid()
      invariant Writing(was, input.content, input.offset, out.written, out.limit, out.silent)
      decreases input.Limit() - input.offset
    {
      hide Writing, Kept, Accepted;
      ghost var at, written := input.offset, out.written;
      var data, error := input.Read(bufferSize);
      if error { return false; }
      if |data| == 0 { break; }
      WritingGoesOn(was, input.content, at, input.offset, written, out.limit, out.silent);
      ok := WriteBuffer(data, out);
      if !ok { return; }
      WritingNow(was, input.content, input.offset, out.written, out.limit, out.silent);
    }
    assert input.offset == |input.content| && !input.Fails();
    assert was + input.content[..input.offset] == was + input.content;
    ok := true;
  }

  lemma WritingNow(was: seq<byte>, content: seq<byte>, now: nat, written: seq<byte>, limit: Option<nat>, silent: bool)
    requires now <= |content| && written == Kept(was + content[..now], limit) && Accepted(was + content[..now], limit, silent)
    ensures Writing(was, content, now, written, limit, silent)
  {}

  /** `e` has been written, or what the stream keeps of it. */
  ghost predicate Sunk(was: seq<byte>, e: seq<byte>, written: seq<byte>, out: OutputStream) {
    written == Kept(was + e, out.limit) && Accepted(was + e, out.limit, out.silent)
  }

  lemma SunkStarts(was: seq<byte>, out: OutputStream)
    requires out.limit.Some? ==> |was| <= out.limit.value
    ensures Sunk(was, [], was, out)
  {
    NothingBehind(was);
  }

  /** Writing `more` behind `e`, with `rest` still to come if it succeeds. */
  lemma SunkThen(was: seq<byte>, e: seq<byte>, written: seq<byte>, more: seq<byte>, rest: seq<byte>, out: OutputStream)
    requires Sunk(was, e, written, out)
    ensures Accepted(written + more, out.limit, out.silent) ==> Sunk(was, e + more, Kept(written + more, out.limit), out)
    ensures var whole := e + more + rest;
            !Accepted(written + more, out.limit, out.silent) ==>
              Kept(written + more, out.limit) == Kept(was + whole, out.limit) && !Accepted(was + whole, out.limit, out.silent)
  {
    KeptTwice(was + e, more, out.limit);
    Assoc(was, e, more);
    Assoc(was, e + more, rest);
    if !Accepted(written + more, out.limit, out.silent) { KeptShort(was + (e + more), rest, out.limit); }
  }

  /** `encode(_ bodyPart:)`. */
  method EncodePart(boundary: seq<byte>, p: BodyPart, bufferSize: nat) returns (r: Option<seq<byte>>)
    requires p.bodyStream.Valid() && p.bodyStream.offset == 0 && bufferSize > 0
    modifies p.bodyStream
    ensures r == if Encodable(p.View()) then Some(PartData(boundary, p.View())) else None
  {
    hide BoundaryData, HeaderData, Encodable;
    var encoded := BoundaryData(if p.hasInitialBoundary then InitialBoundary else EncapsulatedBoundary, boundary);
    ghost var line := encoded;
    encoded := encoded + HeaderData(p.headers);
    var body := EncodeBodyStream(p, bufferSize);
    if body.None? { return None; }
    Assoc(line, HeaderData(p.headers), body.value);
    encoded := encoded + body.value;
    NothingBehind(encoded);
    if p.hasFinalBoundary { encoded := encoded + BoundaryData(FinalBoundary, boundary); }
    r := Some(encoded);
  }

  /** `write(_ bodyPart:to:)`: boundary, headers, body, closing boundary. */
  method WritePart(boundary: seq<byte>, p: BodyPart, bufferSize: nat, out: OutputStream) returns (ok: bool)
    requires p.bodyStream.Valid() && p.bodyStream.offset == 0 && bufferSize > 0 && out.Valid()
    modifies p.bodyStream, out
    ensures out.Valid()
    ensures ok <==> Readable(p.View()) && Accepted(old(out.written) + PartData(boundary, p.View()), out.limit, out.silent)
    ensures Readable(p.View()) ==> out.written == Kept(old(out.written) + PartData(boundary, p.View()), out.limit)
  {
    ghost var was := out.written;
    var line := BoundaryData(if p.hasInitialBoundary then InitialBoundary else EncapsulatedBoundary, boundary);
    var header := HeaderData(p.headers);
    ghost var content := p.bodyStream.content;
    var last := if p.hasFinalBoundary then BoundaryData(FinalBoundary, boundary) else [];
    PartSplit(boundary, p.View());
    SunkStarts(was, out);
    hide BoundaryData, HeaderData, PartData, Kept, Accepted, Readable;
    SunkThen(was, [], out.written, line, header + content + last, out);
    ok := WriteBuffer(line, out);
    if !ok { return; }
    SunkThen(was, [] + line, out.written, header, content + last, out);
    ok := WriteBuffer(header, out);
    if !ok { return; }
    SunkThen(was, [] + line + header, out.written, content, last, out);
    ok := WriteBodyStream(p, bufferSize, out);
    if !ok { return; }
    SunkThen(was, [] + line + header + content, out.written, last, [], out);
    ok := WriteBuffer(last, out);
  }

  /** The four writes of a part, grouped from each of them. */
  lemma PartSplit(boundary: seq<byte>, p: Part)
    ensures var line := BoundaryData(if p.initial then InitialBoundary else EncapsulatedBoundary, boundary);
            var header, content := HeaderData(p.headers), p.content;
            var last := if p.final then BoundaryData(FinalBoundary, boundary) else [];
            && [] + line + (header + content + last) == PartData(boundary, p)
            && [] + line + header + (content + last) == PartData(boundary, p)
            && [] + line + header + content + last == PartData(boundary, p)
            && [] + line + header + content + last + [] == PartData(boundary, p)
  {
    hide BoundaryData, HeaderData;
  }

  /** Distinct parts with streams of their own, none of them read yet. */
  ghost predicate Unread(parts: seq<BodyPart>)
    reads set p | p in parts :: p.bodyStream
  {
    && (forall i, j | 0 <= i < j < |parts| :: parts[i] != parts[j] && parts[i].bodyStream != parts[j].bodyStream)
    && UnreadFrom(parts, 0)
  }

  ghost predicate UnreadFrom(parts: seq<BodyPart>, k: nat)
    reads set p | p in parts :: p.bodyStream
  {
    forall i | k <= i < |parts| :: parts[i].bodyStream.Valid() && parts[i].bodyStream.offset == 0
  }

  function Views(parts: seq<BodyPart>): (r: seq<Part>)
    reads parts
    ensures |r| == |parts| && forall i | 0 <= i < |r| :: r[i] == parts[i].View()
  {
    seq(|parts|, i requires 0 <= i < |parts| reads parts => parts[i].View())
  }

  predicate AllReadable(parts: seq<Part>) { forall i | 0 <= i < |parts| :: Readable(parts[i]) }

  predicate AllEncodable(parts: seq<Part>) { forall i | 0 <= i < |parts| :: Encodable(parts[i]) }

  lemma PartsDataNext(boundary: seq<byte>, parts: seq<Part>, i: nat)
    requires i < |parts|
    ensures PartsData(boundary, parts[..i + 1]) == PartsData(boundary, parts[..i]) + PartData(boundary, parts[i])
  {
    assert parts[..i + 1][..i] == parts[..i];
  }

  /** The loop of `encode()`. */
  method EncodeParts(boundary: seq<byte>, parts: seq<BodyPart>, bufferSize: nat) returns (r: Option<seq<byte>>)
    requires Unread(parts) && bufferSize > 0
    modifies set p | p in parts :: p.bodyStream
    ensures Views(parts) == old(Views(parts))
    ensures r == if AllEncodable(Views(parts)) then Some(PartsData(boundary, Views(parts))) else None
  {
    ghost var views := Views(parts);
    var encoded: seq<byte> := [];
    NoneEncoded(boundary, views);
    hide PartsEncoded, AllEncodable, PartsData, Views;
    for i := 0 to |parts|
      invariant UnreadFrom(parts, i) && Views(parts) == views
      invariant PartsEncoded(boundary, views, i, encoded)
    {
      assert views[i] == parts[i].View();
      var data := EncodeNextPart(boundary, parts[i], bufferSize, views, i, encoded);
      if data.None? { return None; }
      encoded := encoded + data.value;
    }
    AllEncoded(boundary, views, encoded);
    r := Some(encoded);
  }

  /** The first `i` parts are encodable, and `encoded` is their data. */
  ghost predicate PartsEncoded(boundary: seq<byte>, views: seq<Part>, i: nat, encoded: seq<byte>) {
    i <= |views| && AllEncodable(views[..i]) && encoded == PartsData(boundary, views[..i])
  }

  lemma NoneEncoded(boundary: seq<byte>, views: seq<Part>)
    ensures PartsEncoded(boundary, views, 0, [])
  {
    assert views[..0] == [];
  }

  lemma AllEncoded(boundary: seq<byte>, views: seq<Part>, encoded: seq<byte>)
    requires PartsEncoded(boundary, views, |views|, encoded)
    ensures AllEncodable(views) && encoded == PartsData(boundary, views)
  {
    assert views[..|views|] == views;
  }

  /** One part behind those already encoded. */
  method EncodeNextPart(boundary: seq<byte>, p: BodyPart, bufferSize: nat, ghost views: seq<Part>, ghost i: nat,
                        ghost encoded: seq<byte>)
    returns (data: Option<seq<byte>>)
    requires p.bodyStream.Valid() && p.bodyStream.offset == 0 && bufferSize > 0
    requires i < |views| && views[i] == p.View() && PartsEncoded(boundary, views, i, encoded)
    modifies p.bodyStream
    ensures data.Some? ==> PartsEncoded(boundary, views, i + 1, encoded + data.value)
    ensures data.None? ==> !AllEncodable(views)
  {
    hide PartData, Encodable, AllEncodable, PartsData;
    EncodableNext(views, i);
    PartsDataNext(boundary, views, i);
    data := EncodePart(boundary, p, bufferSize);
  }

  lemma EncodableNext(views: seq<Part>, i: nat)
    requires i < |views|
    ensures AllEncodable(views[..i]) && Encodable(views[i]) ==> AllEncodable(views[..i + 1])
    ensures AllEncodable(views) ==> Encodable(views[i])
  {}

  /** The loop of `writeEncodedData(to:)`. */
  method WriteParts(boundary: seq<byte>, parts: seq<BodyPart>, bufferSize: nat, out: OutputStream) returns (ok: bool)
    requires Unread(parts) && bufferSize > 0 && out.Valid()
    modifies out, set p | p in parts :: p.bodyStream
    ensures out.Valid() && Views(parts) == old(Views(parts))
    ensures AllReadable(Views(parts)) ==>
              && (ok <==> Accepted(old(out.written) + PartsData(boundary, Views(parts)), out.limit, out.silent))
              && out.written == Kept(old(out.written) + PartsData(boundary, Views(parts)), out.limit)
    ensures ok ==> AllReadable(Views(parts))
  {
    ghost var views, was := Views(parts), out.written;
    NoneWritten(boundary, was, views, out);
    hide PartsWritten, PartsData, Views, Kept, Accepted, AllReadable;
    for i := 0 to |parts|
      invariant out.Valid() && UnreadFrom(parts, i) && Views(parts) == views
      invariant PartsWritten(boundary, was, views, i, out.written, out)
    {
      assert views[i] == parts[i].View();
      ok := WriteNextPart(boundary, parts[i], bufferSize, out, views, i, was);
      if !ok { return; }
    }
    AllWritten(boundary, was, views, out.written, out);
    ok := true;
  }

  /** The first `i` parts could be read and have been written. */
  ghost predicate PartsWritten(boundary: seq<byte>, was: seq<byte>, views: seq<Part>, i: nat, written: seq<byte>, out: OutputStream) {
    i <= |views| && AllReadable(views[..i]) && Sunk(was, PartsData(boundary, views[..i]), written, out)
  }

  lemma NoneWritten(boundary: seq<byte>, was: seq<byte>, views: seq<Part>, out: OutputStream)
    requires out.limit.Some? ==> |was| <= out.limit.value
    ensures PartsWritten(boundary, was, views, 0, was, out)
  {
    SunkStarts(was, out);
    assert views[..0] == [];
  }

  lemma AllWritten(boundary: seq<byte>, was: seq<byte>, views: seq<Part>, written: seq<byte>, out: OutputStream)
    requires PartsWritten(boundary, was, views, |views|, written, out)
    ensures AllReadable(views) && Sunk(was, PartsData(boundary, views), written, out)
  {
    assert views[..|views|] == views;
  }

  /** One part, with those in front of it written and those behind it still to come. */
  method WriteNextPart(boundary: seq<byte>, p: BodyPart, bufferSize: nat, out: OutputStream,
                       ghost views: seq<Part>, i: nat, ghost was: seq<byte>)
    returns (ok: bool)
    requires p.bodyStream.Valid() && p.bodyStream.offset == 0 && bufferSize > 0 && out.Valid()
    requires i < |views| && views[i] == p.View() && PartsWritten(boundary, was, views, i, out.written, out)
    modifies p.bodyStream, out
    ensures out.Valid()
    ensures ok ==> PartsWritten(boundary, was, views, i + 1, out.written, out)
    ensures !ok && AllReadable(views) ==>
              && out.written == Kept(was + PartsData(boundary, views), out.limit)
              && !Accepted(was + PartsData(boundary, views), out.limit, out.silent)
  {
    ReadableNext(views, i);
    hide PartData, PartsData, Kept, Accepted, Sunk, Readable, AllReadable;
    PartsDataNext(boundary, views, i);
    PartsDataRest(boundary, views, i + 1);
    SunkThen(was, PartsData(boundary, views[..i]), out.written, PartData(boundary, views[i]),
             PartsData(boundary, views[i + 1..]), out);
    ok := WritePart(boundary, p, bufferSize, out);
  }

  lemma ReadableNext(views: seq<Part>, i: nat)
    requires i < |views|
    ensures AllReadable(views[..i]) && Readable(views[i]) ==> AllReadable(views[..i + 1])
    ensures AllReadable(views) ==> Readable(views[i])
  {}

  lemma {:induction false} PartsDataRest(boundary: seq<byte>, parts: seq<Part>, i: nat)
    requires i <= |parts|
    ensures PartsData(boundary, parts) == PartsData(boundary, parts[..i]) + PartsData(boundary, parts[i..])
    decreases |parts| - i
  {
    if i == |parts| {
      assert parts[..i] == parts && parts[i..] == [];
    } else {
      PartsDataRest(boundary, parts, i + 1);
      PartsDataNext(boundary, parts, i);
      PartsDataFront(boundary, parts[i..]);
      assert parts[i..][1..] == parts[i + 1..];
      Assoc(PartsData(boundary, parts[..i]), PartData(boundary, parts[i]), PartsData(boundary, parts[i + 1..]));
    }
  }

  class MultipartFormData {
    const boundary: seq<byte>
    const streamBufferSize: nat
    var bodyParts: seq<BodyPart>
    var bodyPartError: bool

    ghost predicate Valid()
      reads this, set p | p in bodyParts :: p.bodyStream
    {
      streamBufferSize > 0 && Unread(bodyParts)
    }

    function Parts(): (r: seq<Part>)
      reads this, bodyParts
    {
      Views(bodyParts)
    }

    constructor (boundary: seq<byte>)
      ensures Valid() && this.boundary == boundary && bodyParts == [] && !bodyPartError
    {
      this.boundary := boundary;
      streamBufferSize := 1024;
      bodyParts := [];
      bodyPartError := false;
    }

    /** `append(_:withLength:headers:)`. */
    method Append(stream: InputStream, length: nat, headers: seq<Header>)
      requires Valid() && stream.Valid() && stream.offset == 0
      requires forall i | 0 <= i < |bodyParts| :: bodyParts[i].bodyStream != stream
      modifies this`bodyParts
      ensures Valid()
      ensures Parts() == old(Parts()) + [Part(headers, stream.content, stream.Fails(), length, false, false)]
      ensures |bodyParts| == |old(bodyParts)| + 1 && bodyParts[..|old(bodyParts)|] == old(bodyParts)
      ensures fresh(bodyParts[|old(bodyParts)|]) && bodyParts[|old(bodyParts)|].bodyStream == stream
    {
      var p := new BodyPart(headers, stream, length);
      bodyParts := bodyParts + [p];
    }

    /** The two assignments both encoders start with. */
    method MarkEnds()
      requires Valid()
      modifies bodyParts
      ensures Valid()
      ensures Parts() == Marked(old(Parts()))
    {
      if bodyParts == [] { return; }
      bodyParts[0].hasInitialBoundary := true;
      bodyParts[|bodyParts| - 1].hasFinalBoundary := true;
    }

    /** `encode()`. */
    method Encode() returns (r: Option<seq<byte>>)
      requires Valid()
      modifies bodyParts, set p | p in bodyParts :: p.bodyStream
      ensures r == EncodeOf(boundary, bodyPartError, old(Parts()))
      ensures Parts() == if bodyPartError then old(Parts()) else Marked(old(Parts()))
    {
      hide PartsData, Encodable, AllEncodable, Views, Unread, Marked;
      if bodyPartError { return None; }
      MarkedEncodable(Parts());
      MarkEnds();
      r := EncodeParts(boundary, bodyParts, streamBufferSize);
    }

    /** `writeEncodedData(to:)` onto an output stream that could be opened. */
    method WriteEncodedData(out: OutputStream) returns (ok: bool)
      requires Valid() && out.Valid()
      modifies bodyParts, out, set p | p in bodyParts :: p.bodyStream
      ensures out.Valid()
      ensures Parts() == if bodyPartError then old(Parts()) else Marked(old(Parts()))
      ensures bodyPartError ==> out.written == old(out.written)
      ensures var all := old(out.written) + PartsData(boundary, Marked(old(Parts())));
              && (ok <==> WriteSucceeds(bodyPartError, old(Parts()), all, out.limit, out.silent))
              && (!bodyPartError && AllReadable(old(Parts())) ==> out.written == Kept(all, out.limit))
    {
      hide PartsData, AllReadable, Views, Unread, Marked, Kept, Accepted;
      if bodyPartError { return false; }
      MarkedEncodable(Parts());
      MarkEnds();
      ok := WriteParts(boundary, bodyParts, streamBufferSize, out);
    }
  }

  /** What `encode` returns for a form with these parts: it succeeds exactly when every part's stream can
      be read to its end and has the announced length. */
  function EncodeOf(boundary: seq<byte>, error: bool, parts: seq<Part>): Option<seq<byte>> {
    if !error && AllEncodable(parts) then Some(PartsData(boundary, Marked(parts))) else None
  }

  lemma MarkedEncodable(parts: seq<Part>)
    ensures AllEncodable(Marked(parts)) <==> AllEncodable(parts)
    ensures AllReadable(Marked(parts)) <==> AllReadable(parts)
  {
    var m := Marked(parts);
    assert forall i | 0 <= i < |parts| :: Encodable(m[i]) <==> Encodable(parts[i]);
    assert forall i | 0 <= i < |parts| :: Readable(m[i]) <==> Readable(parts[i]);
  }

  /** From equal forms not encoded before: whenever `encode` succeeds, the streaming writer can read every
      part too, and both emit the same bytes, a multipart body of the parts, whatever lengths the input
      streams deliver and the output stream accepts, as long as it does not run out of space. */
  lemma StreamingAgrees(boundary: seq<byte>, error: bool, parts: seq<Part>, limit: Option<nat>, silent: bool)
    requires parts != [] && Fresh(parts) && EncodeOf(boundary, error, parts).Some?
    ensures var e := EncodeOf(boundary, error, parts).value;
            && !error && AllReadable(parts)
            && e == PartsData(boundary, Marked(parts)) == MultipartBody(boundary, Sections(parts))
            && (Kept([] + e, limit) == e && Accepted([] + e, limit, silent) <==> limit.None? || |e| <= limit.value)
  {
    EmitsLayout(boundary, parts);
    var e := EncodeOf(boundary, error, parts).value;
    assert [] + e == e;
    assert forall i | 0 <= i < |parts| :: Encodable(parts[i]) ==> Readable(parts[i]);
    hide Marked, PartsData, Sections, MultipartBody;
  }

  /** When the streaming writer returns without an error, `all` being what the stream should hold then. */
  predicate WriteSucceeds(error: bool, parts: seq<Part>, all: seq<byte>, limit: Option<nat>, silent: bool) {
    !error && AllReadable(parts) && Accepted(all, limit, silent)
  }

  predicate LengthsHold(parts: seq<Part>) {
    forall i | 0 <= i < |parts| :: |parts[i].content| == parts[i].contentLength
  }

  /** How the two encoders differ, for every form and output stream. Given enough space the writer succeeds
      exactly when every part can be read; `encode` asks for the announced lengths besides. And the writer
      returns without an error although bytes are missing exactly when the stream is one that reports only
      that it has no space left, and its limit is below the length. */
  lemma EncodersCompared(boundary: seq<byte>, parts: seq<Part>, was: seq<byte>, limit: Option<nat>, silent: bool)
    ensures var all := was + PartsData(boundary, Marked(parts));
            var enough := limit.None? || |all| <= limit.value;
            && (EncodeOf(boundary, false, parts).Some? <==> AllReadable(parts) && LengthsHold(parts))
            && (enough ==> (WriteSucceeds(false, parts, all, limit, silent) <==> AllReadable(parts)))
            && (WriteSucceeds(false, parts, all, limit, silent) && Kept(all, limit) != all <==>
                AllReadable(parts) && silent && !enough)
  {
    hide PartsData, Marked;
    assert forall i | 0 <= i < |parts| ::
        Encodable(parts[i]) <==> Readable(parts[i]) && |parts[i].content| == parts[i].contentLength;
  }

  // ---- The methods side by side -----------------------------------------------------------------------------------------

  /** What a form is built from. */
  datatype Source = Source(headers: seq<Header>, content: seq<byte>, failAt: Option<nat>, endUnknown: bool, contentLength: nat)

  function PartOf(x: Source): Part {
    Part(x.headers, x.content, x.failAt.Some? && x.failAt.value < |x.content|, x.contentLength, false, false)
  }

  function PartsOf(xs: seq<Source>): (r: seq<Part>)
    ensures |r| == |xs| && forall i | 0 <= i < |r| :: r[i] == PartOf(xs[i])
  {
    seq(|xs|, i requires 0 <= i < |xs| => PartOf(xs[i]))
  }

  lemma PartsOfNext(xs: seq<Source>, i: nat)
    requires i < |xs|
    ensures PartsOf(xs[..i + 1]) == PartsOf(xs[..i]) + [PartOf(xs[i])]
  {}

  /** One source more, on a stream that delivers pieces of the given sizes. */
  method AddSource(form: MultipartFormData, x: Source, sizes: seq<nat>)
    requires form.Valid()
    modifies form`bodyParts
    ensures form.Valid() && form.Parts() == old(form.Parts()) + [PartOf(x)]
    ensures |form.bodyParts| == |old(form.bodyParts)| + 1
    ensures forall p | p in form.bodyParts :: p in old(form.bodyParts) || (fresh(p) && fresh(p.bodyStream))
  {
    var stream := new InputStream(x.content, sizes, x.failAt, x.endUnknown);
    hide Unread, Views;
    ghost var was := form.bodyParts;
    form.Append(stream, x.contentLength, x.headers);
    assert form.bodyParts == was + [form.bodyParts[|was|]];
  }

  /** A form over the sources. */
  method BuildForm(boundary: seq<byte>, xs: seq<Source>, sizes: seq<nat>) returns (form: MultipartFormData)
    ensures fresh(form) && form.Valid() && form.boundary == boundary && !form.bodyPartError
    ensures form.Parts() == PartsOf(xs)
    ensures forall p | p in form.bodyParts :: fresh(p) && fresh(p.bodyStream)
  {
    form := new MultipartFormData(boundary);
    assert xs[..|xs|] == xs && PartsOf(xs[..0]) == [];
    assert form.Parts() == [];
    hide Unread, Views, PartsOf, PartOf;
    for i := 0 to |xs|
      invariant fresh(form) && form.Valid() && form.boundary == boundary && !form.bodyPartError
      invariant form.Parts() == PartsOf(xs[..i])
      invariant forall p | p in form.bodyParts :: fresh(p) && fresh(p.bodyStream)
    {
      PartsOfNext(xs, i);
      AddSource(form, xs[i], sizes);
    }
  }

  /** `encode` of a new form. */
  method EncodeNew(boundary: seq<byte>, xs: seq<Source>, sizes: seq<nat>) returns (r: Option<seq<byte>>)
    ensures r == EncodeOf(boundary, false, PartsOf(xs))
  {
    hide Unread, Views, PartsOf, EncodeOf;
    var form := BuildForm(boundary, xs, sizes);
    r := form.Encode();
  }

  /** `writeEncodedData` of a new form to a stream with room for everything. */
  method WriteNew(boundary: seq<byte>, xs: seq<Source>, sizes: seq<nat>, writes: seq<nat>) returns (ok: bool, written: seq<byte>)
    ensures ok <==> AllReadable(PartsOf(xs))
    ensures ok ==> written == PartsData(boundary, Marked(PartsOf(xs)))
  {
    NoneBefore(PartsData(boundary, Marked(PartsOf(xs))));
    hide Unread, Views, PartsOf, PartsData, Marked, AllReadable;
    var form := BuildForm(boundary, xs, sizes);
    var out := new OutputStream(None, false, writes);
    ok := form.WriteEncodedData(out);
    written := out.written;
  }

  lemma NoneBefore(s: seq<byte>)
    ensures [] + s == s
  {}

  /** Two equal forms, one encoded in memory and one written to a stream with room for everything: whenever
      the first succeeds so does the second, with the same bytes, whatever sizes their reads and writes have. */
  method EncodeBothWays(boundary: seq<byte>, xs: seq<Source>, sizesInMemory: seq<nat>, sizes: seq<nat>, writes: seq<nat>)
    returns (r: Option<seq<byte>>, ok: bool, written: seq<byte>)
    ensures r.Some? ==> ok && written == r.value
    ensures r.Some? && xs != [] ==> written == MultipartBody(boundary, Sections(PartsOf(xs)))
    ensures r.Some? <==> ok && LengthsHold(PartsOf(xs))
  {
    EncodersCompared(boundary, PartsOf(xs), [], None, false);
    if xs != [] { EmitsLayout(boundary, PartsOf(xs)); }
    hide PartsData, Marked, PartsOf, Sections, MultipartBody, LengthsHold, AllReadable;
    r := EncodeNew(boundary, xs, sizesInMemory);
    ok, written := WriteNew(boundary, xs, sizes, writes);
  }
}
