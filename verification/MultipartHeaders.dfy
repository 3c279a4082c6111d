/** Reading an encoded form back: a header reader of its own, and what a receiver learns from the bytes of a
    multipart body. Carriage return, line feed, colon, space and hyphen are 13, 10, 58, 32 and 45. */
module MultipartHeaders {
  import opened Bytes
  import opened Multipart

  /** The bytes in front of the first occurrence of `a`, `b`, and those behind it. */
  function Before(s: seq<byte>, a: byte, b: byte): (r: Option<(seq<byte>, seq<byte>)>)
    ensures r.Some? ==> |r.value.1| < |s|
  {
    if |s| < 2 then None
    else if s[0] == a && s[1] == b then Some(([], s[2..]))
    else
      var r := Before(s[1..], a, b);
      if r.None? then None else Some(([s[0]] + r.value.0, r.value.1))
  }

  /** Header lines up to the empty line, and the content behind it. */
  function ReadHeaders(s: seq<byte>): Option<(seq<Header>, seq<byte>)>
    decreases |s|
  {
    if |s| >= 2 && s[0] == 13 && s[1] == 10 then Some(([], s[2..]))
    else
      match Before(s, 58, 32)
      case None => None
      case Some((name, afterName)) =>
        match Before(afterName, 13, 10)
        case None => None
        case Some((value, afterLine)) =>
          match ReadHeaders(afterLine)
          case None => None
          case Some((headers, content)) => Some(([Header(name, value)] + headers, content))
  }

  /** Names without colons and line breaks, values without line breaks. */
  ghost predicate Plain(headers: seq<Header>) {
    forall k | 0 <= k < |headers| :: PlainHeader(headers[k])
  }

  predicate PlainHeader(h: Header) {
    58 !in h.name && 13 !in h.name && 13 !in h.value
  }

  lemma {:induction false} BeforeFinds(x: seq<byte>, a: byte, b: byte, rest: seq<byte>)
    requires a !in x
    ensures Before(x + ([a, b] + rest), a, b) == Some((x, rest))
  {
    var s := x + ([a, b] + rest);
    if x == [] {
      assert s == [a, b] + rest;
      assert s[2..] == rest;
    } else {
      assert s[0] == x[0] && x[0] in x;
      assert s[1..] == x[1..] + ([a, b] + rest);
      BeforeFinds(x[1..], a, b, rest);
      assert [x[0]] + x[1..] == x;
    }
  }

  /** The line of one header: name, colon, space, value, line break. */
  lemma LineOf(headers: seq<Header>, content: seq<byte>)
    requires headers != []
    ensures HeaderData(headers) + content
         == headers[0].name + ([58, 32] + (headers[0].value + ([13, 10] + (HeaderData(headers[1..]) + content))))
  {
    var n, v, r := headers[0].name, headers[0].value, HeaderLines(headers[1..]);
    assert HeaderLines(headers) == n + [58, 32] + v + [13, 10] + r;
    assert n + [58, 32] + v + [13, 10] + r + [13, 10] + content == n + ([58, 32] + (v + ([13, 10] + (r + [13, 10] + content))));
  }

  /** The reader recovers names, values and content from a section, exactly and in order. */
  lemma {:induction false} HeadersReadBack(headers: seq<Header>, content: seq<byte>)
    requires Plain(headers)
    ensures ReadHeaders(HeaderData(headers) + content) == Some((headers, content))
    decreases |headers|
  {
    var s := HeaderData(headers) + content;
    if headers == [] {
      assert HeaderData(headers) == [13, 10];
      assert s[2..] == content;
    } else {
      var h := headers[0];
      assert PlainHeader(h);
      var rest := HeaderData(headers[1..]) + content;
      LineOf(headers, content);
      hide HeaderData;
      HeadersReadBack(headers[1..], content);
      NotEmptyLine(h.name, h.value + ([13, 10] + rest));
      BeforeFinds(h.name, 58, 32, h.value + ([13, 10] + rest));
      BeforeFinds(h.value, 13, 10, rest);
      hide Before;
      assert [Header(h.name, h.value)] + headers[1..] == headers;
    }
  }

  lemma NotEmptyLine(name: seq<byte>, rest: seq<byte>)
    requires 13 !in name
    ensures (name + ([58, 32] + rest))[0] != 13
  {
    if name != [] { assert name[0] in name; }
  }

  /** The layout in numbers, for one part and for one more in front of others. */
  lemma BodyBytes(boundary: seq<byte>, part: seq<byte>, parts: seq<seq<byte>>)
    ensures MultipartBody(boundary, [part])
         == [45, 45] + boundary + [13, 10] + part + [13, 10, 45, 45] + boundary + [45, 45, 13, 10]
    ensures parts != [] ==>
              Encapsulations(boundary, parts)
              == [13, 10, 45, 45] + boundary + [13, 10] + parts[0] + Encapsulations(boundary, parts[1..])
    ensures Encapsulations(boundary, []) == [13, 10, 45, 45] + boundary + [45, 45]
  {
    assert Encapsulations(boundary, []) == [13, 10, 45, 45] + boundary + [45, 45];
    assert [part][1..] == [];
    assert MultipartBody(boundary, [part])
        == [45, 45] + boundary + [13, 10] + part + ([13, 10, 45, 45] + boundary + [45, 45]) + [13, 10];
  }

  ghost predicate Receivable(boundary: seq<byte>, parts: seq<Part>) {
    && Fresh(parts) && FreeOfDelimiter(boundary, Sections(parts))
    && forall i | 0 <= i < |parts| :: Plain(parts[i].headers)
  }

  /** A receiver learns everything: two forms that encode to the same bytes have the same headers and the same
      contents, part by part, when no delimiter occurs inside a part and the headers are plain. */
  lemma EncodedFormDetermines(boundary: seq<byte>, ps: seq<Part>, qs: seq<Part>)
    requires CR !in boundary && ps != [] && qs != []
    requires Receivable(boundary, ps) && Receivable(boundary, qs)
    requires EncodeOf(boundary, false, ps).Some? && EncodeOf(boundary, false, ps) == EncodeOf(boundary, false, qs)
    ensures |ps| == |qs|
    ensures forall i | 0 <= i < |ps| :: ps[i].headers == qs[i].headers && ps[i].content == qs[i].content
  {
    hide Marked, PartsData, MultipartBody, FreeOfDelimiter, Plain, Section, AllEncodable;
    EmitsLayout(boundary, ps);
    EmitsLayout(boundary, qs);
    BodyDeterminesSections(boundary, Sections(ps), Sections(qs));
    forall i | 0 <= i < |ps| ensures ps[i].headers == qs[i].headers && ps[i].content == qs[i].content {
      assert Sections(ps)[i] == Sections(qs)[i];
      SectionDetermines(ps[i], qs[i]);
    }
  }

  lemma SectionDetermines(p: Part, q: Part)
    requires Section(p) == Section(q) && Plain(p.headers) && Plain(q.headers)
    ensures p.headers == q.headers && p.content == q.content
  {
    hide ReadHeaders, HeaderData, Plain;
    HeadersReadBack(p.headers, p.content);
    HeadersReadBack(q.headers, q.content);
  }
}
