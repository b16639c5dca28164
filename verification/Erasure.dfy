/** What taking the " (HTTPS)" and " (HTTP)" marks out does to a message, without
    reference to how they are found. */
module Erasure {
  import opened Text
  import opened HttpRequests
  import opened MessageLaws
  import opened Repeater

  /** r is s with the first occurrence of the pattern taken out, in place, if there is one. */
  ghost predicate ErasesTo(s: string, pat: string, r: string) {
    || (!Within(pat, s) && r == s)
    || exists a: string, b: string {:trigger a + pat + b} ::
         s == a + pat + b && r == a + b && forall i: nat | i < |a| :: !(pat <= s[i..])
  }

  lemma FirstIs(s: string, pat: string, a: string, b: string)
    requires s == a + pat + b && forall i: nat | i < |a| :: !(pat <= s[i..])
    ensures Find(s, pat) == Some(|a|)
  {
    assert s[|a|..|a| + |pat|] == pat;
    forall i: nat | i < |a| ensures !OccursAt(s, pat, i) {
      assert i + |pat| <= |s| ==> s[i..][..|pat|] == s[i..i + |pat|];
    }
    FindIs(s, pat, |a|);
  }

  lemma EraseFirstIs(s: string, pat: string, r: string)
    requires ErasesTo(s, pat, r)
    ensures EraseFirst(s, pat) == r
  {
    ContainsIsWithin(s, pat);
    if Within(pat, s) {
      var a: string, b: string :| s == a + pat + b && r == a + b && forall i: nat | i < |a| :: !(pat <= s[i..]);
      FirstIs(s, pat, a, b);
      assert s[..|a|] == a && s[|a| + |pat|..] == b;
    }
  }

  /** r is s with the marks taken out, " (HTTPS)" first. */
  ghost predicate CleanedTo(s: string, r: string) {
    exists m: string :: ErasesTo(s, " (HTTPS)", m) && ErasesTo(m, " (HTTP)", r)
  }

  ghost predicate HasMark(s: string) {
    Within(" (HTTPS)", s) || Within(" (HTTP)", s)
  }

  lemma HasMarkIs(s: string)
    ensures HasMark(s) <==> !Unmarked(s)
  {
    ContainsIsWithin(s, " (HTTPS)");
    ContainsIsWithin(s, " (HTTP)");
    hide Within, Contains;
  }

  lemma SanitizeIs(s: string, r: string)
    requires CleanedTo(s, r)
    ensures Sanitize(s) == r
  {
    var m: string :| ErasesTo(s, " (HTTPS)", m) && ErasesTo(m, " (HTTP)", r);
    EraseFirstIs(s, " (HTTPS)", m);
    EraseFirstIs(m, " (HTTP)", r);
    hide EraseFirst, ErasesTo;
  }

  lemma EraseFirstErases(s: string, pat: string)
    ensures ErasesTo(s, pat, EraseFirst(s, pat))
  {
    ContainsIsWithin(s, pat);
    var f := Find(s, pat);
    if f.Some? {
      var a, b := s[..f.value], s[f.value + |pat|..];
      assert s == a + pat + b;
      FindFromFirst(s, pat, 0);
      forall i: nat | i < |a| ensures !(pat <= s[i..]) {
        assert !OccursAt(s, pat, i);
        assert i + |pat| <= |s| ==> s[i..][..|pat|] == s[i..i + |pat|];
      }
    }
  }

  /** Every text is cleaned to one and only one text. */
  lemma CleanedToOne(s: string, r: string)
    ensures CleanedTo(s, Sanitize(s))
    ensures CleanedTo(s, r) ==> r == Sanitize(s)
  {
    EraseFirstErases(s, " (HTTPS)");
    EraseFirstErases(EraseFirst(s, " (HTTPS)"), " (HTTP)");
    if CleanedTo(s, r) { SanitizeIs(s, r); }
    hide ErasesTo, EraseFirst;
  }

  // ------------------------------------------------------------------ what is sent

  /** The bytes sent for an edited text: the marks taken out in place, CRLF forced, and
      the header section closed if it was not. */
  lemma SentIs(s: string, r: string)
    requires CleanedTo(s, r)
    ensures var base := CrlfForm(r);
            Serialize(Parsed(s)) ==
              if Within("\r\n\r\n", base) then base
              else if |base| >= 2 && base[|base| - 2..] == "\r\n" then base + "\r\n"
              else base + "\r\n\r\n"
  {
    SanitizeIs(s, r);
    SentBytesAreNormalForm(s);
    ContainsIsWithin(CrlfForm(r), BLANK_LINE);
    FindBlank(LinesOf(r));
    EndsInEmptyLine(LinesOf(r));
    AddTerminator(LinesOf(r));
    assert NormalText(s) == Unlines(WithTerminator(LinesOf(r)), CRLF);
    hide Parsed, Serialize, Sanitize, NormalText, Unlines, LinesOf, Find, Within, CleanedTo, CrlfNormal, Unmarked;
  }

  /** It is the cleaned text itself exactly when that is CRLF-normal with a blank line. */
  lemma SentAsCleaned(s: string, r: string)
    requires CleanedTo(s, r)
    ensures Serialize(Parsed(s)) == r <==> CrlfNormal(r) && Within("\r\n\r\n", r)
  {
    SanitizeIs(s, r);
    SentBytesAreNormalForm(s);
    NormalTextShape(s);
    ContainsIsWithin(r, BLANK_LINE);
    NormalFormFixes(r);
    FindBlank(LinesOf(r));
    assert NormalText(s) == Unlines(WithTerminator(LinesOf(r)), CRLF);
    hide Parsed, Serialize, Sanitize, NormalText, Unlines, LinesOf, Within, CleanedTo, CrlfNormal, Unmarked;
  }

  /** The mark might as well not have been there, for everything the parser gives. */
  lemma ParsedAsCleaned(s: string, r: string)
    requires CleanedTo(s, r) && !HasMark(r)
    ensures Parsed(s) == Parsed(r)
  {
    SanitizeIs(s, r);
    HasMarkIs(r);
    SanitizeCounts(r, '\r');
    hide Sanitize, ParsedStart, ParsedHeaders, ParsedBody, Count;
  }

  /** But only if no mark is left: one more mark is taken out of the cleaned text when
      it is sent by itself. */
  lemma SentLikeCleaned(s: string, r: string)
    requires CleanedTo(s, r)
    ensures Serialize(Parsed(s)) == Serialize(Parsed(r)) <==> !HasMark(r)
  {
    if !HasMark(r) {
      ParsedAsCleaned(s, r);
    } else {
      SentLonger(s, r);
    }
  }

  lemma SentLonger(s: string, r: string)
    requires CleanedTo(s, r) && HasMark(r)
    ensures |Serialize(Parsed(s))| > |Serialize(Parsed(r))|
  {
    SanitizeIs(s, r);
    HasMarkIs(r);
    SentBytesAreNormalForm(s);
    SentBytesAreNormalForm(r);
    NormalTextParts(s);
    CrlfFormCounts(r);
    NormalTextCounts(r);
    SanitizeCounts(r, '\r');
    hide Parsed, Serialize, Sanitize, NormalText, CrlfForm, Count, CleanedTo, HasMark, CrlfNormal, Unmarked, Contains;
  }

  // --------------------------------------------------------------- the single marks

  lemma ErasedOnce(a: string, pat: string, b: string)
    requires forall i: nat | i < |a| :: !(pat <= (a + pat + b)[i..])
    ensures ErasesTo(a + pat + b, pat, a + b)
  {
  }

  /** A Host line that was given a " (HTTPS)" mark: the text goes out as if without it,
      provided it holds no other mark; and never as if without it otherwise. */
  lemma HttpsMarkErased(a: string, b: string)
    requires forall i: nat | i < |a| :: !(" (HTTPS)" <= (a + " (HTTPS)" + b)[i..])
    requires !Within(" (HTTP)", a + b)
    ensures var s := a + " (HTTPS)" + b;
            && (Serialize(Parsed(s)) == Serialize(Parsed(a + b)) <==> !Within(" (HTTPS)", a + b))
            && (CrlfNormal(a + b) && Within("\r\n\r\n", a + b) ==> Serialize(Parsed(s)) == a + b)
  {
    var s := a + " (HTTPS)" + b;
    ErasedOnce(a, " (HTTPS)", b);
    assert ErasesTo(a + b, " (HTTP)", a + b);
    assert CleanedTo(s, a + b);
    hide ErasesTo, Parsed, Serialize, Within, CrlfNormal;
    SentLikeCleaned(s, a + b);
    SentAsCleaned(s, a + b);
  }

  lemma HttpMarkErased(a: string, b: string)
    requires forall i: nat | i < |a| :: !(" (HTTP)" <= (a + " (HTTP)" + b)[i..])
    requires !Within(" (HTTPS)", a + " (HTTP)" + b)
    ensures var s := a + " (HTTP)" + b;
            && (Serialize(Parsed(s)) == Serialize(Parsed(a + b)) <==> !HasMark(a + b))
            && (CrlfNormal(a + b) && Within("\r\n\r\n", a + b) ==> Serialize(Parsed(s)) == a + b)
  {
    var s := a + " (HTTP)" + b;
    ErasedOnce(a, " (HTTP)", b);
    assert ErasesTo(s, " (HTTPS)", s);
    assert CleanedTo(s, a + b);
    hide ErasesTo, Parsed, Serialize, Within, CrlfNormal, HasMark;
    SentLikeCleaned(s, a + b);
    SentAsCleaned(s, a + b);
  }

  /** Both marks, " (HTTPS)" taken out first. */
  lemma BothMarksErased(a: string, b: string, c: string, d: string)
    requires forall i: nat | i < |a| :: !(" (HTTPS)" <= (a + " (HTTPS)" + b)[i..])
    requires a + b == c + " (HTTP)" + d && forall i: nat | i < |c| :: !(" (HTTP)" <= (a + b)[i..])
    ensures var s := a + " (HTTPS)" + b;
            && (Serialize(Parsed(s)) == Serialize(Parsed(c + d)) <==> !HasMark(c + d))
            && (CrlfNormal(c + d) && Within("\r\n\r\n", c + d) ==> Serialize(Parsed(s)) == c + d)
  {
    var s := a + " (HTTPS)" + b;
    ErasedOnce(a, " (HTTPS)", b);
    ErasedOnce(c, " (HTTP)", d);
    assert CleanedTo(s, c + d);
    hide ErasesTo, Parsed, Serialize, Within, CrlfNormal, HasMark;
    SentLikeCleaned(s, c + d);
    SentAsCleaned(s, c + d);
  }

  /** Two marks of the same kind: one is left, so the text does not go out as the text
      with one mark would by itself. */
  lemma SecondMarkStays(a: string)
    requires !Within(" (HTTPS)", a) && !Within(" (HTTP)", a + " (HTTPS)")
    requires forall i: nat | i < |a| :: !(" (HTTPS)" <= (a + " (HTTPS)" + " (HTTPS)")[i..])
    ensures Serialize(Parsed(a + " (HTTPS)" + " (HTTPS)")) != Serialize(Parsed(a + " (HTTPS)"))
  {
    assert a + " (HTTPS)" == a + " (HTTPS)" + "";
    hide Parsed, Serialize;
    HttpsMarkErased(a, " (HTTPS)");
  }

  // -------------------------------------------------------------------- the Repeater

  /** The Repeater sends the same lines, after the start line "Connection: close" and
      the Host line unless their names occur already. */
  lemma NormalisedIs(s: string, r: string, host: string)
    requires CleanedTo(s, r) && IsLine(host)
    ensures var ls := WithTerminator(LinesOf(r));
            var t := Unlines(ls, "\r\n");
            var hosts := if Within("Host:", t) || Within("host:", t) then [] else ["Host: " + host];
            var u := Unlines([ls[0]] + hosts + ls[1..], "\r\n");
            var conns := if Within("Connection:", u) || Within("connection:", u) then [] else ["Connection: close"];
            LinesOf(Normalised(s, host)) == [ls[0]] + conns + hosts + ls[1..]
  {
    hide *;
    CleanedLines(s, r);
    var ls := WithTerminator(LinesOf(r));
    NormalisedLines(s, host);
    HostedIs(ls, host);
    AddedIs(s, ls, host);
    forall a: seq<string>, b: seq<string> ensures [ls[0]] + (a + b) + ls[1..] == [ls[0]] + a + b + ls[1..] {
      Regrouped([ls[0]], a, b, ls[1..]);
    }
  }

  lemma Regrouped(a: seq<string>, b: seq<string>, c: seq<string>, d: seq<string>)
    ensures a + (b + c) + d == a + b + c + d
  {
  }

  lemma CleanedLines(s: string, r: string)
    requires CleanedTo(s, r)
    ensures var ls := WithTerminator(LinesOf(r));
            MessageLines(s) == ls && NormalText(s) == Unlines(ls, CRLF) && HasBlank(ls) && ls != []
  {
    SanitizeIs(s, r);
    TerminatorAdded(LinesOf(r));
    hide Sanitize, LinesOf, Unlines, WithTerminator, CleanedTo;
  }

  lemma AddedIs(s: string, ls: seq<string>, host: string)
    requires IsDocument(ls) && NormalText(s) == Unlines(ls, CRLF)
    requires var hosts := if Names(Unlines(ls, CRLF), HOST, HOST_LOWER) then [] else ["Host: " + host];
             Ensured(Unlines(ls, CRLF), HOST, HOST_LOWER, "Host: " + host) == Unlines([ls[0]] + hosts + ls[1..], CRLF)
    ensures var t := Unlines(ls, "\r\n");
            var hosts := if Within("Host:", t) || Within("host:", t) then [] else ["Host: " + host];
            var u := Unlines([ls[0]] + hosts + ls[1..], "\r\n");
            var conns := if Within("Connection:", u) || Within("connection:", u) then [] else ["Connection: close"];
            AddedLines(s, host) == conns + hosts
  {
    var t := Unlines(ls, CRLF);
    NamesIs(t, HOST, HOST_LOWER);
    NamesIs(Ensured(t, HOST, HOST_LOWER, "Host: " + host), CONNECTION, CONNECTION_LOWER);
    hide Names, Ensured, Within, Unlines, NormalText, IsDocument;
  }

  lemma NamesIs(t: string, name: string, lower: string)
    ensures Names(t, name, lower) <==> Within(name, t) || Within(lower, t)
  {
    ContainsIsWithin(t, name);
    ContainsIsWithin(t, lower);
    hide Contains, Within;
  }

  lemma HostedIs(ls: seq<string>, host: string)
    requires IsDocument(ls) && HasBlank(ls) && IsLine(host)
    ensures var hosts := if Names(Unlines(ls, CRLF), HOST, HOST_LOWER) then [] else ["Host: " + host];
            Ensured(Unlines(ls, CRLF), HOST, HOST_LOWER, "Host: " + host) == Unlines([ls[0]] + hosts + ls[1..], CRLF)
  {
    EnsuredIsLines(ls, HOST, HOST_LOWER, "Host: " + host);
    hide Names, Ensured, Unlines, BlankIndex;
    assert [ls[0]] + [] + ls[1..] == ls;
  }

  /** So a text with a mark is normalised as the text without it. */
  lemma NormalisedAsCleaned(s: string, r: string, host: string)
    requires CleanedTo(s, r) && !HasMark(r)
    ensures Normalised(s, host) == Normalised(r, host)
  {
    SanitizeIs(s, r);
    HasMarkIs(r);
    SanitizeCounts(r, '\r');
    hide Sanitize, LinesOf, Ensured, Count;
  }
}
