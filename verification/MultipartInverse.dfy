/** Reading multipart form data back: different part lists have different encodings. */
module MultipartInverse {
  import opened Wrappers
  import opened Multipart

  /** What separates parts: a carriage return and a line feed, two hyphens, the boundary. */
  function Delimiter(boundary: Bytes): Bytes {
    [13, 10] + [45, 45] + boundary
  }

  // ---------- Searching ----------

  /** The first place where `pat` stands in `s`. */
  function Find(s: Bytes, pat: Bytes): (r: Option<nat>)
    ensures r.Some? ==> r.value + |pat| <= |s|
  {
    if pat <= s then Some(0)
    else if s == [] then None
    else match Find(s[1..], pat) case None => None case Some(k) => Some(k + 1)
  }

  lemma {:induction false} FindFirst(s: Bytes, pat: Bytes, k: nat)
    requires k <= |s| && pat <= s[k..] && forall j | 0 <= j < k :: !(pat <= s[j..])
    ensures Find(s, pat) == Some(k)
    decreases k
  {
    if k == 0 {
      assert s[0..] == s;
    } else {
      assert s[0..] == s && !(pat <= s[0..]);
      assert s[1..][k - 1..] == s[k..];
      forall j | 0 <= j < k - 1 ensures !(pat <= s[1..][j..]) {
        assert s[1..][j..] == s[j + 1..];
      }
      FindFirst(s[1..], pat, k - 1);
    }
  }

  // ---------- A reader ----------

  // It is written with the bytes that the RFC names, not with the encoders' constants.

  function ParseHeaders(s: Bytes): (r: Option<(seq<Header>, Bytes)>)
    ensures r.Some? ==> |r.value.1| < |s|
    decreases |s|
  {
    if [13, 10] <= s then Some(([], s[2..]))
    else
      match Find(s, [13, 10])
      case None => None
      case Some(k) =>
        var line := s[..k];
        match Find(line, [58, 32])
        case None => None
        case Some(j) =>
          match ParseHeaders(s[k + 2..])
          case None => None
          case Some(p) => Some(([Header(line[..j], line[j + 2..])] + p.0, p.1))
  }

  /** The parts after a boundary line. */
  function ParseParts(boundary: Bytes, s: Bytes): Option<seq<Part>>
    decreases |s|
  {
    match ParseHeaders(s)
    case None => None
    case Some(h) =>
      match Find(h.1, Delimiter(boundary))
      case None => None
      case Some(k) =>
        var part := Part(h.0, h.1[..k]);
        var after := h.1[k + |Delimiter(boundary)|..];
        if after == [45, 45, 13, 10] then Some([part])
        else if [13, 10] <= after then
          match ParseParts(boundary, after[2..])
          case None => None
          case Some(parts) => Some([part] + parts)
        else None
  }

  function Parse(boundary: Bytes, s: Bytes): Option<seq<Part>> {
    var opening := [45, 45] + boundary + [13, 10];
    if s == [] then Some([])
    else if opening <= s then ParseParts(boundary, s[|opening|..])
    else None
  }

  // ---------- Conditions ----------

  predicate CleanHeader(h: Header) {
    13 !in h.name && 58 !in h.name && 13 !in h.value
  }

  /** No header has a line break, and no header's name a colon. */
  predicate CleanNames(headers: seq<Header>) {
    forall k | 0 <= k < |headers| :: CleanHeader(headers[k])
  }

  predicate CleanHeaders(parts: seq<Part>) {
    forall i | 0 <= i < |parts| :: CleanNames(parts[i].headers)
  }

  /** The delimiter does not stand in the body. */
  predicate Undelimited(boundary: Bytes, body: Bytes) {
    forall j | 0 <= j <= |body| :: !(Delimiter(boundary) <= body[j..])
  }

  predicate AllUndelimited(boundary: Bytes, parts: seq<Part>) {
    forall i | 0 <= i < |parts| :: Undelimited(boundary, parts[i].body)
  }

  // ---------- Reading back ----------

  lemma LineEnd(line: Bytes, t: Bytes)
    requires CR !in line
    ensures Find(line + CRLF + t, CRLF) == Some(|line|)
  {
    var s := line + CRLF + t;
    assert s[|line|..] == CRLF + t;
    forall j | 0 <= j < |line| ensures !(CRLF <= s[j..]) {
      assert s[j..][0] == line[j];
      assert line[j] in line;
    }
    FindFirst(s, CRLF, |line|);
  }

  /** A header line without its end. */
  function NameAndValue(h: Header): Bytes {
    h.name + [COLON, SPACE] + h.value
  }

  lemma NameEnd(h: Header)
    requires CleanHeader(h)
    ensures Find(NameAndValue(h), [COLON, SPACE]) == Some(|h.name|)
    ensures CR !in NameAndValue(h) && NameAndValue(h) != []
    ensures NameAndValue(h)[..|h.name|] == h.name && NameAndValue(h)[|h.name| + 2..] == h.value
  {
    var s := NameAndValue(h);
    assert s[|h.name|..] == [COLON, SPACE] + h.value;
    forall j | 0 <= j < |h.name| ensures !([COLON, SPACE] <= s[j..]) {
      assert s[j..][0] == h.name[j];
      assert h.name[j] in h.name;
    }
    FindFirst(s, [COLON, SPACE], |h.name|);
  }

  /** One header line read off the front. */
  lemma HeaderRead(h: Header, rest: Bytes)
    requires CleanHeader(h) && ParseHeaders(rest).Some?
    ensures ParseHeaders(NameAndValue(h) + CRLF + rest)
         == Some(([h] + ParseHeaders(rest).value.0, ParseHeaders(rest).value.1))
  {
    hide Find, NameAndValue, CleanHeader;
    var line := NameAndValue(h);
    var s := line + CRLF + rest;
    NameEnd(h);
    LineEnd(line, rest);
    assert s[0] == line[0] && line[0] in line;
    assert !(CRLF <= s);
    assert s[..|line|] == line;
    assert s[|line| + 2..] == rest;
  }

  lemma SplitHeaders(headers: seq<Header>)
    requires headers != []
    ensures HeaderLines(headers) == HeaderLine(headers[0]) + HeaderLines(headers[1..])
  {
    hide HeaderLine;
  }

  lemma HeadersNext(headers: seq<Header>, t: Bytes)
    requires headers != []
    ensures HeaderData(headers) + t == NameAndValue(headers[0]) + CRLF + (HeaderData(headers[1..]) + t)
  {
    var more := HeaderLines(headers[1..]);
    SplitHeaders(headers);
    hide HeaderLines;
    assert HeaderLine(headers[0]) == NameAndValue(headers[0]) + CRLF;
    Regroup(HeaderLine(headers[0]), more, CRLF, t);
  }

  lemma Regroup(a: Bytes, b: Bytes, c: Bytes, d: Bytes)
    ensures ((a + b) + c) + d == a + ((b + c) + d)
  {
  }

  lemma NoHeaders(t: Bytes)
    ensures HeaderData([]) == CRLF
    ensures ParseHeaders(HeaderData([]) + t) == Some(([], t))
  {
    hide Find;
    assert (CRLF + t)[2..] == t;
  }

  lemma {:induction false} HeadersRead(headers: seq<Header>, t: Bytes)
    requires CleanNames(headers)
    ensures ParseHeaders(HeaderData(headers) + t) == Some((headers, t))
    decreases |headers|
  {
    hide ParseHeaders, HeaderData, CleanHeader;
    if headers == [] {
      NoHeaders(t);
    } else {
      assert [headers[0]] + headers[1..] == headers;
      HeadersRead(headers[1..], t);
      HeaderRead(headers[0], HeaderData(headers[1..]) + t);
      HeadersNext(headers, t);
    }
  }

  lemma DelimiterStart(boundary: Bytes)
    ensures |Delimiter(boundary)| >= 4 && Delimiter(boundary)[0] == CR
  {
  }

  lemma OnlyFirstIsCR(boundary: Bytes, m: nat)
    requires CR !in boundary && 0 < m < |Delimiter(boundary)|
    ensures Delimiter(boundary)[m] != CR
  {
    if m >= 4 {
      assert Delimiter(boundary)[m] == boundary[m - 4];
      assert boundary[m - 4] in boundary;
    }
  }

  /** A delimiter after the body does not start earlier: either it would lie in the body, or
      the next one's CR would be inside it, and it has a CR only in front. */
  lemma NotEarlier(boundary: Bytes, body: Bytes, t: Bytes, j: nat)
    requires CR !in boundary && j < |body| && !(Delimiter(boundary) <= body[j..])
    ensures !(Delimiter(boundary) <= (body + Delimiter(boundary) + t)[j..])
  {
    hide Delimiter;
    var d := Delimiter(boundary);
    var s := (body + d + t)[j..];
    var m := |body| - j;
    if m >= |d| {
      assert s[..|d|] == body[j..][..|d|];
    } else {
      DelimiterStart(boundary);
      assert s[m] == d[0];
      OnlyFirstIsCR(boundary, m);
    }
  }

  lemma BodyEnd(boundary: Bytes, body: Bytes, t: Bytes)
    requires CR !in boundary && Undelimited(boundary, body)
    ensures Find(body + Delimiter(boundary) + t, Delimiter(boundary)) == Some(|body|)
  {
    hide Delimiter, Find;
    var d := Delimiter(boundary);
    var s := body + d + t;
    assert s[|body|..] == d + t;
    forall j | 0 <= j < |body| ensures !(d <= s[j..]) {
      NotEarlier(boundary, body, t, j);
    }
    FindFirst(s, d, |body|);
  }

  /** In a body with a delimiter the first one ends the body too early. */
  lemma BodyCut(boundary: Bytes, body: Bytes, t: Bytes)
    requires !Undelimited(boundary, body)
    ensures var r := Find(body + Delimiter(boundary) + t, Delimiter(boundary)); r.Some? && r.value < |body|
  {
    hide Delimiter, Find;
    var d := Delimiter(boundary);
    var s := body + d + t;
    var j :| 0 <= j <= |body| && d <= body[j..];
    DelimiterStart(boundary);
    assert s[j..][..|d|] == body[j..][..|d|];
    FindBefore(s, d, j);
  }

  lemma {:induction false} FindBefore(s: Bytes, pat: Bytes, k: nat)
    requires k <= |s| && pat <= s[k..]
    ensures Find(s, pat).Some? && Find(s, pat).value <= k
    decreases k
  {
    if k == 0 {
      assert s[0..] == s;
    } else {
      assert s[1..][k - 1..] == s[k..];
      FindBefore(s[1..], pat, k - 1);
    }
  }

  /** What follows the delimiter in front of the parts `rest`. */
  function After(boundary: Bytes, rest: seq<Part>): Bytes
    decreases |rest|, 1
  {
    if rest == [] then DASHES + CRLF else CRLF + Tail(boundary, rest)
  }

  /** The encoding from the headers of the first of `parts` on. */
  function Tail(boundary: Bytes, parts: seq<Part>): Bytes
    requires parts != []
    decreases |parts|, 0
  {
    HeaderData(parts[0].headers) + (parts[0].body + Delimiter(boundary) + After(boundary, parts[1..]))
  }

  function Opening(boundary: Bytes, i: nat): Bytes {
    BoundaryData(if i == 0 then InitialBoundary else Encapsulated, boundary)
  }

  lemma BoundariesShareDelimiter(boundary: Bytes, i: nat)
    ensures Opening(boundary, i + 1) == Delimiter(boundary) + CRLF
    ensures BoundaryData(FinalBoundary, boundary) == Delimiter(boundary) + (DASHES + CRLF)
    ensures BoundaryData(Encapsulated, boundary) == Delimiter(boundary) + CRLF
  {
  }

  lemma Rejoin(o: Bytes, h: Bytes, b: Bytes, d: Bytes, a: Bytes)
    ensures o + h + b + (d + a) + [] == o + (h + (b + d + a))
  {
  }

  lemma RejoinMiddle(o: Bytes, h: Bytes, b: Bytes, d: Bytes, c: Bytes, t: Bytes)
    ensures o + h + b + [] + (d + c + t) == o + (h + (b + d + (c + t)))
  {
  }

  lemma {:induction false} DataIsTail(boundary: Bytes, parts: seq<Part>, i: nat)
    requires i < |parts|
    ensures PartsData(boundary, parts, i) == Opening(boundary, i) + Tail(boundary, parts[i..])
    decreases |parts| - i
  {
    hide HeaderData, Delimiter, BoundaryData, Opening, PartsData, PartData;
    var p := parts[i];
    var d := Delimiter(boundary);
    BoundariesShareDelimiter(boundary, i);
    PartsNext(boundary, parts, i);
    PartsNext(boundary, parts, i + 1);
    PartOpened(boundary, p, i, i == |parts| - 1);
    assert parts[i..][0] == p && parts[i..][1..] == parts[i + 1..];
    if i == |parts| - 1 {
      Rejoin(Opening(boundary, i), HeaderData(p.headers), p.body, d, DASHES + CRLF);
    } else {
      DataIsTail(boundary, parts, i + 1);
      RejoinMiddle(Opening(boundary, i), HeaderData(p.headers), p.body, d, CRLF, Tail(boundary, parts[i + 1..]));
    }
  }

  lemma PartOpened(boundary: Bytes, p: Part, i: nat, final: bool)
    ensures PartData(boundary, p, i == 0, final)
         == Opening(boundary, i) + HeaderData(p.headers) + p.body + (if final then BoundaryData(FinalBoundary, boundary) else [])
  {
    hide BoundaryData, HeaderData;
  }

  /** One part read off the front, when its body has no delimiter. */
  lemma PartRead(boundary: Bytes, p: Part, after: Bytes)
    requires CR !in boundary && CleanNames(p.headers) && Undelimited(boundary, p.body)
    requires after == DASHES + CRLF || (after != DASHES + CRLF && CRLF <= after)
    ensures ParseParts(boundary, HeaderData(p.headers) + (p.body + Delimiter(boundary) + after))
         == if after == DASHES + CRLF then Some([p])
            else match ParseParts(boundary, after[2..])
              case None => None
              case Some(parts) => Some([p] + parts)
  {
    hide Find, ParseHeaders, HeaderData, Delimiter, CleanHeader, Undelimited;
    var d := Delimiter(boundary);
    var rest := p.body + d + after;
    HeadersRead(p.headers, rest);
    BodyEnd(boundary, p.body, after);
    assert rest[..|p.body|] == p.body;
    assert rest[|p.body| + |d|..] == after;
  }

  /** When its body has one, another part is read, or none. */
  lemma PartMisread(boundary: Bytes, p: Part, after: Bytes)
    requires CleanNames(p.headers) && !Undelimited(boundary, p.body)
    ensures var r := ParseParts(boundary, HeaderData(p.headers) + (p.body + Delimiter(boundary) + after));
      r.Some? ==> r.value != [] && |r.value[0].body| < |p.body|
  {
    hide Find, ParseHeaders, HeaderData, Delimiter, CleanHeader, Undelimited;
    HeadersRead(p.headers, p.body + Delimiter(boundary) + after);
    BodyCut(boundary, p.body, after);
  }

  lemma AfterStarts(boundary: Bytes, rest: seq<Part>)
    ensures After(boundary, rest) == DASHES + CRLF <==> rest == []
    ensures rest != [] ==> CRLF <= After(boundary, rest) && After(boundary, rest)[2..] == Tail(boundary, rest)
  {
    hide Tail;
    if rest != [] { assert After(boundary, rest)[0] == CR && (DASHES + CRLF)[0] == DASH; }
  }

  lemma {:induction false} TailRead(boundary: Bytes, parts: seq<Part>)
    requires CR !in boundary && parts != [] && CleanHeaders(parts)
    ensures ParseParts(boundary, Tail(boundary, parts)) == Some(parts) <==> AllUndelimited(boundary, parts)
    decreases |parts|
  {
    hide ParseParts, HeaderData, Delimiter, After, CleanHeader, Undelimited;
    var p, rest := parts[0], parts[1..];
    var after := After(boundary, rest);
    assert parts == [p] + rest;
    assert CleanNames(p.headers);
    assert AllUndelimited(boundary, parts) <==> Undelimited(boundary, p.body) && AllUndelimited(boundary, rest);
    assert Tail(boundary, parts) == HeaderData(p.headers) + (p.body + Delimiter(boundary) + after);
    AfterStarts(boundary, rest);
    if !Undelimited(boundary, p.body) {
      PartMisread(boundary, p, after);
    } else {
      PartRead(boundary, p, after);
      if rest == [] {
        assert parts == [p];
      } else {
        TailRead(boundary, rest);
        var r := ParseParts(boundary, Tail(boundary, rest));
        if r.Some? { assert ([p] + r.value)[1..] == r.value; }
      }
    }
  }

  lemma OpeningStart(boundary: Bytes)
    ensures Opening(boundary, 0) != [] && Opening(boundary, 0) == [45, 45] + boundary + [13, 10]
  {
  }

  /** What the encoders write is read back as the parts that were encoded, if and only if no
      body contains the delimiter. */
  lemma ReadBack(boundary: Bytes, parts: seq<Part>)
    requires CR !in boundary && CleanHeaders(parts)
    ensures Parse(boundary, Encoded(boundary, parts)) == Some(parts) <==> AllUndelimited(boundary, parts)
  {
    hide ParseParts, Tail, CleanHeader, Undelimited, BoundaryData, PartsData;
    PartsNext(boundary, parts, 0);
    if parts != [] {
      var opening := Opening(boundary, 0);
      OpeningStart(boundary);
      DataIsTail(boundary, parts, 0);
      assert parts[0..] == parts;
      TailRead(boundary, parts);
      assert (opening + Tail(boundary, parts))[|opening|..] == Tail(boundary, parts);
    }
  }

  /** Different lists of parts with clean headers, and no delimiter in a body, have different
      encodings. */
  lemma EncodingIsInjective(boundary: Bytes, a: seq<Part>, b: seq<Part>)
    requires CR !in boundary && CleanHeaders(a) && CleanHeaders(b)
    requires AllUndelimited(boundary, a) && AllUndelimited(boundary, b)
    requires Encoded(boundary, a) == Encoded(boundary, b)
    ensures a == b
  {
    hide Parse, Encoded, CleanHeaders, AllUndelimited;
    ReadBack(boundary, a);
    ReadBack(boundary, b);
  }

  /** A delimiter inside a body, with a line end and any block of headers behind it, makes
      the encoding ambiguous: the part reads as two, wherever it stands. */
  lemma DelimiterInBodyIsAmbiguous(
    boundary: Bytes, before: seq<Part>, h: seq<Header>, x: Bytes, h': seq<Header>, y: Bytes, after: seq<Part>)
    ensures var one := before + [Part(h, x + Delimiter(boundary) + CRLF + HeaderData(h') + y)] + after;
      var two := before + [Part(h, x), Part(h', y)] + after;
      one != two && Encoded(boundary, one) == Encoded(boundary, two)
  {
    hide Delimiter, PartsData, HeaderData, Opening, Tail;
    var one := before + [Part(h, x + Delimiter(boundary) + CRLF + HeaderData(h') + y)] + after;
    var two := before + [Part(h, x), Part(h', y)] + after;
    assert |one| != |two|;
    DataIsTail(boundary, one, 0);
    DataIsTail(boundary, two, 0);
    assert one[0..] == one && two[0..] == two;
    SplitTail(boundary, before, h, x, h', y, after);
  }

  lemma {:induction false} SplitTail(
    boundary: Bytes, before: seq<Part>, h: seq<Header>, x: Bytes, h': seq<Header>, y: Bytes, after: seq<Part>)
    ensures Tail(boundary, before + [Part(h, x + Delimiter(boundary) + CRLF + HeaderData(h') + y)] + after)
         == Tail(boundary, before + [Part(h, x), Part(h', y)] + after)
    decreases |before|
  {
    hide Delimiter, HeaderData;
    var d := Delimiter(boundary);
    var one := before + [Part(h, x + d + CRLF + HeaderData(h') + y)] + after;
    var two := before + [Part(h, x), Part(h', y)] + after;
    if before == [] {
      assert one[0] == Part(h, x + d + CRLF + HeaderData(h') + y) && one[1..] == after;
      assert two[0] == Part(h, x) && two[1..] == [Part(h', y)] + after;
      assert two[1..][0] == Part(h', y) && two[1..][1..] == after;
      SplitBytes(x, d, CRLF, HeaderData(h'), y, After(boundary, after));
      assert After(boundary, two[1..]) == CRLF + (HeaderData(h') + (y + d + After(boundary, after)));
    } else {
      assert one[0] == before[0] && one[1..] == before[1..] + [Part(h, x + d + CRLF + HeaderData(h') + y)] + after;
      assert two[0] == before[0] && two[1..] == before[1..] + [Part(h, x), Part(h', y)] + after;
      SplitTail(boundary, before[1..], h, x, h', y, after);
    }
  }

  lemma SplitBytes(x: Bytes, d: Bytes, e: Bytes, h: Bytes, y: Bytes, a: Bytes)
    ensures x + d + e + h + y + d + a == x + d + (e + (h + (y + d + a)))
  {
  }
}
