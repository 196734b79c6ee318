/** The server-side helpers (src/utils/helpers.js): HTML escaping of text
    into character references, and the classification of a failed API call
    into a status and a message. */
module Helpers {
  import opened Common
  import opened Text

  // ---------------------------------------------------------------------
  // sanitizeText
  // ---------------------------------------------------------------------

  /** `s.replace(/c/g, rep)`: every occurrence of `c` becomes `rep`. */
  function ReplaceAll(s: string, c: char, rep: string): string
  {
    if s == [] then [] else (if s[0] == c then rep else [s[0]]) + ReplaceAll(s[1..], c, rep)
  }

  /** The replace chain of lines 39-44, in its order: '&' first, so the
      ampersands of the later references are not replaced again. */
  function ReplaceChain(s: string): string
  {
    var s1 := ReplaceAll(s, '&', "&amp;");
    var s2 := ReplaceAll(s1, '<', "&lt;");
    var s3 := ReplaceAll(s2, '>', "&gt;");
    var s4 := ReplaceAll(s3, '"', "&quot;");
    ReplaceAll(s4, '\'', "&#039;")
  }

  /** `sanitizeText(text)`: a falsy text gives ''. */
  function SanitizeText(text: Option<string>): (r: string)
    ensures !Present(text) ==> r == ""
    ensures Present(text) ==> r == Escape(text.value)
  {
    if !Present(text) then ""
    else
      ReplaceChainIsEscape(text.value);
      ReplaceChain(text.value)
  }

  /** The character reference (section 13.1.4 of the WHATWG HTML Living
      Standard) that stands for each of the five special characters; every
      other character stands for itself. */
  function EscapeChar(c: char): (r: string)
    ensures |r| >= 1
  {
    if c == '&' then "&amp;"
    else if c == '<' then "&lt;"
    else if c == '>' then "&gt;"
    else if c == '"' then "&quot;"
    else if c == '\'' then "&#039;"
    else [c]
  }

  /** The escaping, one character at a time. */
  function Escape(s: string): (r: string)
    ensures '<' !in r && '>' !in r && '"' !in r && '\'' !in r
    ensures |r| >= |s|
  {
    if s == [] then [] else EscapeChar(s[0]) + Escape(s[1..])
  }

  lemma {:induction false} ReplaceAllConcat(a: string, b: string, c: char, rep: string)
    ensures ReplaceAll(a + b, c, rep) == ReplaceAll(a, c, rep) + ReplaceAll(b, c, rep)
  {
    if a == [] {
      assert a + b == b;
    } else {
      assert (a + b)[0] == a[0] && (a + b)[1..] == a[1..] + b;
      ReplaceAllConcat(a[1..], b, c, rep);
    }
  }

  lemma {:induction false} ReplaceAllAbsent(s: string, c: char, rep: string)
    requires c !in s
    ensures ReplaceAll(s, c, rep) == s
  {
    if s != [] {
      ReplaceAllAbsent(s[1..], c, rep);
    }
  }

  lemma ReplaceChainConcat(a: string, b: string)
    ensures ReplaceChain(a + b) == ReplaceChain(a) + ReplaceChain(b)
  {
    var a1, b1 := ReplaceAll(a, '&', "&amp;"), ReplaceAll(b, '&', "&amp;");
    ReplaceAllConcat(a, b, '&', "&amp;");
    var a2, b2 := ReplaceAll(a1, '<', "&lt;"), ReplaceAll(b1, '<', "&lt;");
    ReplaceAllConcat(a1, b1, '<', "&lt;");
    var a3, b3 := ReplaceAll(a2, '>', "&gt;"), ReplaceAll(b2, '>', "&gt;");
    ReplaceAllConcat(a2, b2, '>', "&gt;");
    var a4, b4 := ReplaceAll(a3, '"', "&quot;"), ReplaceAll(b3, '"', "&quot;");
    ReplaceAllConcat(a3, b3, '"', "&quot;");
    ReplaceAllConcat(a4, b4, '\'', "&#039;");
  }

  /** Replacing `c` in a one-character string. */
  lemma ReplaceAllSingle(x: char, c: char, rep: string)
    ensures ReplaceAll([x], c, rep) == if x == c then rep else [x]
  {
    assert [x][1..] == [];
  }

  /** The replacements after the `from`-th (0 is the '&' one) leave a text
      without their characters alone. */
  lemma LaterReplacementsKeep(s: string, from: nat)
    requires '\'' !in s && (from <= 3 ==> '"' !in s) && (from <= 2 ==> '>' !in s) && (from <= 1 ==> '<' !in s)
    ensures from <= 1 ==> ReplaceAll(s, '<', "&lt;") == s
    ensures from <= 2 ==> ReplaceAll(s, '>', "&gt;") == s
    ensures from <= 3 ==> ReplaceAll(s, '"', "&quot;") == s
    ensures ReplaceAll(s, '\'', "&#039;") == s
  {
    if from <= 1 { ReplaceAllAbsent(s, '<', "&lt;"); }
    if from <= 2 { ReplaceAllAbsent(s, '>', "&gt;"); }
    if from <= 3 { ReplaceAllAbsent(s, '"', "&quot;"); }
    ReplaceAllAbsent(s, '\'', "&#039;");
  }

  // The chain on each special character: its reference is produced by its
  // own replacement and left alone by the later ones.

  lemma ChainAmp()
    ensures ReplaceChain("&") == "&amp;"
  {
    ReplaceAllSingle('&', '&', "&amp;");
    LaterReplacementsKeep("&amp;", 1);
  }

  lemma ChainLt()
    ensures ReplaceChain("<") == "&lt;"
  {
    ReplaceAllSingle('<', '&', "&amp;");
    ReplaceAllSingle('<', '<', "&lt;");
    LaterReplacementsKeep("&lt;", 2);
  }

  lemma ChainGt()
    ensures ReplaceChain(">") == "&gt;"
  {
    ReplaceAllSingle('>', '&', "&amp;");
    ReplaceAllSingle('>', '<', "&lt;");
    ReplaceAllSingle('>', '>', "&gt;");
    LaterReplacementsKeep("&gt;", 3);
  }

  lemma ChainQuot()
    ensures ReplaceChain("\"") == "&quot;"
  {
    ReplaceAllSingle('"', '&', "&amp;");
    ReplaceAllSingle('"', '<', "&lt;");
    ReplaceAllSingle('"', '>', "&gt;");
    ReplaceAllSingle('"', '"', "&quot;");
    LaterReplacementsKeep("&quot;", 4);
  }

  lemma ChainApos()
    ensures ReplaceChain("'") == "&#039;"
  {
    ReplaceAllSingle('\'', '&', "&amp;");
    ReplaceAllSingle('\'', '<', "&lt;");
    ReplaceAllSingle('\'', '>', "&gt;");
    ReplaceAllSingle('\'', '"', "&quot;");
    ReplaceAllSingle('\'', '\'', "&#039;");
  }

  lemma ChainPlain(x: char)
    requires x !in "&<>\"'"
    ensures ReplaceChain([x]) == [x]
  {
    ReplaceAllSingle(x, '&', "&amp;");
    ReplaceAllSingle(x, '<', "&lt;");
    ReplaceAllSingle(x, '>', "&gt;");
    ReplaceAllSingle(x, '"', "&quot;");
    ReplaceAllSingle(x, '\'', "&#039;");
  }

  /** On one character the chain yields that character's reference. */
  lemma ReplaceChainChar(x: char)
    ensures ReplaceChain([x]) == EscapeChar(x)
  {
    if x == '&' { ChainAmp(); }
    else if x == '<' { ChainLt(); }
    else if x == '>' { ChainGt(); }
    else if x == '"' { ChainQuot(); }
    else if x == '\'' { ChainApos(); }
    else { ChainPlain(x); }
  }

  /** The replace chain escapes each character on its own: no reference it
      introduces is escaped a second time. */
  lemma {:induction false} ReplaceChainIsEscape(s: string)
    ensures ReplaceChain(s) == Escape(s)
  {
    if s == [] {
      assert ReplaceChain(s) == [];
    } else {
      assert s == [s[0]] + s[1..];
      ReplaceChainConcat([s[0]], s[1..]);
      ReplaceChainChar(s[0]);
      ReplaceChainIsEscape(s[1..]);
    }
  }

  /** The text from position 0 starts with one of the five references. */
  predicate StartsWithReference(t: string)
  {
    "&amp;" <= t || "&lt;" <= t || "&gt;" <= t || "&quot;" <= t || "&#039;" <= t
  }

  /** Every '&' of an escaped text starts a reference, so the output holds no
      bare ampersand. */
  lemma {:induction false} EscapedAmpersandsStartReferences(s: string)
    ensures forall i :: 0 <= i < |Escape(s)| && Escape(s)[i] == '&' ==> StartsWithReference(Escape(s)[i..])
  {
    if s != [] {
      EscapedAmpersandsStartReferences(s[1..]);
      var head, tail := EscapeChar(s[0]), Escape(s[1..]);
      var r := Escape(s);
      assert r == head + tail;
      forall i | 0 <= i < |r| && r[i] == '&' ensures StartsWithReference(r[i..]) {
        if i < |head| {
          assert head[i] == '&';
          assert i == 0;
          assert head <= r;
        } else {
          assert r[i..] == tail[i - |head|..];
        }
      }
    }
  }

  /** Decoding of the five references (the part of section 13.2.5.72 of the
      WHATWG HTML Living Standard that applies to them); any other character is
      kept. */
  function Unescape(s: string): string
    decreases |s|
  {
    if s == [] then []
    else if "&amp;" <= s then "&" + Unescape(s[5..])
    else if "&lt;" <= s then "<" + Unescape(s[4..])
    else if "&gt;" <= s then ">" + Unescape(s[4..])
    else if "&quot;" <= s then "\"" + Unescape(s[6..])
    else if "&#039;" <= s then "'" + Unescape(s[6..])
    else [s[0]] + Unescape(s[1..])
  }

  /** Decoding an escaped text gives the text back: escaping loses nothing. */
  lemma {:induction false} UnescapeEscape(s: string)
    ensures Unescape(Escape(s)) == s
  {
    if s != [] {
      UnescapeEscape(s[1..]);
      var c, t := s[0], Escape(s[1..]);
      var r := EscapeChar(c) + t;
      assert Escape(s) == r;
      if c == '&' {
        assert "&amp;" <= r && r[5..] == t;
      } else if c == '<' {
        assert r[..4] == "&lt;" && r[1] == 'l';
        assert r[4..] == t;
      } else if c == '>' {
        assert r[..4] == "&gt;" && r[1] == 'g';
        assert r[4..] == t;
      } else if c == '"' {
        assert r[..6] == "&quot;" && r[1] == 'q';
        assert r[6..] == t;
      } else if c == '\'' {
        assert r[..6] == "&#039;" && r[1] == '#';
        assert r[6..] == t;
      } else {
        assert r[0] == c && r[1..] == t;
      }
      assert s == [s[0]] + s[1..];
    }
  }

  // ---------------------------------------------------------------------
  // handleApiError
  // ---------------------------------------------------------------------

  /** The object returned by `handleApiError`: `{ message, status, error: true, originalError }`. */
  datatype ApiError = ApiError(message: Option<string>, status: int, isError: bool, originalError: Error)

  /** Lines 52-76: a response gives its status and `data.message` (or
      "Error: <status>"); a request without a response gives 503; anything
      else gives 500 and the error's own message. */
  function HandleApiError(e: Error): (r: ApiError)
    ensures r.isError && r.originalError == e
    ensures e.response.Some? ==>
              && r.status == e.response.value.status
              && r.message == Some(StringOr(e.response.value.message, "Error: " + IntToString(e.response.value.status)))
    ensures e.response.None? && e.requestSent ==>
              r.status == 503 && r.message == Some("No response received from server")
    ensures e.response.None? && !e.requestSent ==>
              r.status == 500 && r.message == e.message
  {
    if e.response.Some? then
      var status := e.response.value.status;
      ApiError(Some(StringOr(e.response.value.message, "Error: " + IntToString(status))), status, true, e)
    else if e.requestSent then
      ApiError(Some("No response received from server"), 503, true, e)
    else
      ApiError(e.message, 500, true, e)
  }

  /** What a service throws: the controllers read the `status` and `message`
      of the object `handleApiError` returned; it has no `response`. */
  function Thrown(a: ApiError): (e: Error)
    ensures e.status == Some(a.status) && e.message == a.message && e.response.None?
  {
    Error(Some(a.status), a.message, None, false)
  }

  /** A controller's catch block answering a failed service call: the API's
      status when it answered with a non-zero one, 503 when it did not answer,
      500 otherwise; the message is always non-empty when the API answered. */
  lemma ControllerReplyToServiceError(e: Error, fallback: string)
    requires fallback != ""
    ensures var reply := FailureReply(Thrown(HandleApiError(e)), fallback);
            && !reply.success
            && (e.response.Some? && e.response.value.status != 0 ==> reply.status == e.response.value.status)
            && (e.response.Some? && e.response.value.status == 0 ==> reply.status == 500)
            && (e.response.None? && e.requestSent ==> reply.status == 503 && reply.message == "No response received from server")
            && (e.response.None? && !e.requestSent ==> reply.status == 500)
            && reply.message != ""
  {
    var a := HandleApiError(e);
    if e.response.Some? {
      var st := e.response.value.status;
      assert |"Error: " + IntToString(st)| > 0;
    }
  }
}
