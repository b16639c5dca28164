/** What the printer and the parser make of each part of a message, for every text. */
module MessageParts {
  import opened Text
  import opened HttpRequests
  import opened MessageLaws

  // ---------------------------------------------------------------------- the printer

  /** A request that was not edited is printed as its start line, its headers in order,
      a blank line and its body; an edited one is the edited text. */
  lemma PrintedWithoutHeaders(r: HttpRequest)
    ensures r.rawOverride != "" ==> Serialize(r) == r.rawOverride
    ensures r.rawOverride == "" && r.headers == [] ==>
              Serialize(r) == r.method_ + " " + r.url + " " + r.version + "\r\n" + "\r\n" + r.body
  {
    assert StartLine(r) + CRLF + "" + CRLF + r.body == StartLine(r) + CRLF + CRLF + r.body;
  }

  /** One header more is one line more, in front of the blank line. */
  lemma PrintedWithHeader(r: HttpRequest, h: Header, head: string)
    requires r.rawOverride == "" && Serialize(r) == head + "\r\n" + r.body
    ensures Serialize(r.(headers := r.headers + [h])) == head + h.name + ": " + h.value + "\r\n" + "\r\n" + r.body
  {
    var more := r.(headers := r.headers + [h]);
    assert more.headers[..|r.headers|] == r.headers;
    var front := StartLine(r) + CRLF + HeaderText(r.headers);
    SameFront(front, head, "\r\n" + r.body);
    assert front + CRLF + r.body == front + (CRLF + r.body);
    assert head + "\r\n" + r.body == head + ("\r\n" + r.body);
    assert StartLine(more) + CRLF + HeaderText(more.headers) == head + (h.name + ": " + h.value) + CRLF;
  }

  lemma SameFront(a: string, b: string, tail: string)
    ensures a + tail == b + tail ==> a == b
  {
    if a + tail == b + tail {
      assert a == (a + tail)[..|a|] && b == (b + tail)[..|b|];
    }
  }

  // ------------------------------------------------------------------- the start line

  /** The white space that ends a word: HT, LF, VT, FF, CR and space. */
  predicate White(c: char) {
    c as int in [9, 10, 11, 12, 13, 32]
  }

  predicate AllWhite(s: string) {
    forall i | 0 <= i < |s| :: White(s[i])
  }

  /** A word, or nothing at the end of the line, and white space after it if anything is. */
  predicate WordThen(w: string, rest: string) {
    && (forall i | 0 <= i < |w| :: !White(w[i]))
    && (rest != "" ==> w != "" && White(rest[0]))
  }

  lemma {:induction false} SpacesDropped(sp: string, t: string)
    requires AllWhite(sp) && (t != "" ==> !White(t[0]))
    ensures DropSpaces(sp + t) == t
  {
    if sp == "" {
      assert sp + t == t;
    } else {
      assert (sp + t)[1..] == sp[1..] + t;
      SpacesDropped(sp[1..], t);
    }
  }

  lemma WordTaken(sp: string, w: string, rest: string)
    requires AllWhite(sp) && WordThen(w, rest)
    ensures ExtractWord(sp + w + rest) == (w, rest)
  {
    assert sp + w + rest == sp + (w + rest);
    SpacesDropped(sp, w + rest);
    WordPrefix(w, rest);
    assert (w + rest)[..|w|] == w && (w + rest)[|w|..] == rest;
  }

  /** The first three words of the start line; those that are missing are GET, / and
      HTTP/1.1, and what follows the third is ignored. */
  lemma StartWords(s1: string, m: string, s2: string, u: string, s3: string, v: string, rest: string)
    requires AllWhite(s1) && AllWhite(s2) && AllWhite(s3)
    requires WordThen(m, s2 + u + s3 + v + rest) && WordThen(u, s3 + v + rest) && WordThen(v, rest)
    ensures ParsedStart(s1 + m + s2 + u + s3 + v + rest) ==
              (if m == "" then "GET" else m, if u == "" then "/" else u, if v == "" then "HTTP/1.1" else v)
  {
    var tail2 := s3 + v + rest;
    var tail1 := s2 + u + tail2;
    assert s2 + u + s3 + v + rest == tail1;
    assert s1 + m + s2 + u + s3 + v + rest == s1 + m + tail1;
    hide ExtractWord, AllWhite, WordThen;
    WordTaken(s1, m, tail1);
    WordTaken(s2, u, tail2);
    WordTaken(s3, v, rest);
  }

  // ----------------------------------------------------------------------- the headers

  /** The headers of the lines that have a colon, in order. */
  ghost predicate HeadersOf(lines: seq<string>, hs: seq<Header>) {
    if lines == [] then hs == []
    else if ':' !in lines[0] then HeadersOf(lines[1..], hs)
    else hs != [] && IsHeaderLine(lines[0], hs[0]) && HeadersOf(lines[1..], hs[1..])
  }

  lemma {:induction false} ParsedConcat(a: seq<string>, b: seq<string>)
    ensures ParsedHeaders(a + b) == ParsedHeaders(a) + ParsedHeaders(b)
  {
    hide ParsedHeader;
    if b == [] {
      assert a + b == a;
    } else {
      var n := |b| - 1;
      ParsedConcat(a, b[..n]);
      LastParsed(a + b);
      LastParsed(b);
      hide ParsedHeaders;
      assert (a + b)[..|a + b| - 1] == a + b[..n] && (a + b)[|a + b| - 1] == b[n];
    }
  }

  lemma LastParsed(ls: seq<string>)
    requires ls != []
    ensures ParsedHeaders(ls) == ParsedHeaders(ls[..|ls| - 1]) + ParsedHeader(ls[|ls| - 1])
  {
  }

  lemma {:induction false} ParsedHeadersAre(lines: seq<string>)
    ensures HeadersOf(lines, ParsedHeaders(lines))
  {
    if lines == [] {
    } else {
      ParsedHeadersAre(lines[1..]);
      FirstParsed(lines);
      ParsedHeaderIs(lines[0]);
      hide ParsedHeaders, ParsedHeader, IsHeaderLine;
      var hs, tail := ParsedHeader(lines[0]), ParsedHeaders(lines[1..]);
      if ':' in lines[0] {
        assert (hs + tail)[1..] == tail;
      } else {
        assert hs + tail == tail;
      }
    }
  }

  lemma FirstParsed(lines: seq<string>)
    requires lines != []
    ensures ParsedHeaders(lines) == ParsedHeader(lines[0]) + ParsedHeaders(lines[1..])
  {
    ParsedConcat([lines[0]], lines[1..]);
    assert [lines[0]] + lines[1..] == lines;
    assert [lines[0]][..0] == [];
    assert ParsedHeaders([lines[0]]) == ParsedHeader(lines[0]) by { hide ParsedHeader; }
    hide ParsedHeaders, ParsedHeader;
  }

  /** Whatever was edited: of the text that is sent, the first line gives the start
      words, and the lines up to the blank one give the headers. */
  lemma PartsParsed(raw: string, start: string, lines: seq<string>, body: seq<string>)
    requires IsLine(start) && IsDocument(body)
    requires forall i | 0 <= i < |lines| :: lines[i] != "" && IsLine(lines[i])
    requires Serialize(Parsed(raw)) == Unlines([start] + lines + [""] + body, "\r\n")
    ensures var r := Parsed(raw);
            (r.method_, r.url, r.version) == ParsedStart(start) && HeadersOf(lines, r.headers)
  {
    var ls := [start] + lines + [""] + body;
    SentBytesAreNormalForm(raw);
    LayoutShape(start, lines, body);
    UnlinesInjective(ls, MessageLines(raw), CRLF);
    ParsedHeadersAre(lines);
    hide ParsedStart, ParsedHeaders, HeadersOf, ParsedBody, BlankIndex, Unlines, Serialize;
  }
}
