/** The bearer-token gate of authMiddleware.js: an admit/deny decision over the
    `authorization` header and the configured secret (`JWT_TOKEN`). */
module AuthMiddleware {
  import opened JsValues

  const Forbidden: nat := 403
  const InvalidTokenMessage: string := "Token inválido o faltante"

  /** What the middleware does with a request: call `next()` and send
      nothing, or send a response and not call `next()`. */
  datatype Decision = Next | Reject(status: nat, message: string)

  /** `s.split(' ')`: the maximal runs of non-space characters between single
      spaces, empty runs included, so there is always at least one part. */
  function Split(s: string): (parts: seq<string>)
    ensures |parts| >= 1
    decreases |s|
  {
    if s == [] then [""]
    else
      var rest := Split(s[1..]);
      if s[0] == ' ' then [""] + rest
      else [[s[0]] + rest[0]] + rest[1..]
  }

  /** `parts.join(' ')`, the inverse of Split. */
  function Join(parts: seq<string>): string
    requires |parts| >= 1
    decreases |parts|
  {
    if |parts| == 1 then parts[0] else parts[0] + " " + Join(parts[1..])
  }

  /** `authHeader && authHeader.split(' ')[1]`: undefined for a missing header,
      the header itself when it is the (falsy) empty string, otherwise the
      second segment, undefined when there is none. */
  function Token(header: Option<string>): (t: Option<string>)
    ensures header.None? ==> t.None?
    ensures header == Some("") ==> t == Some("")
    ensures header.Some? && header.value != "" ==> (t.Some? <==> ' ' in header.value)
    ensures header.Some? && header.value != "" && t.Some? ==> ' ' !in t.value
  {
    match header
    case None => None
    case Some(h) =>
      if h == "" then Some(h)
      else
        var parts := Split(h);
        SplitParts(h);
        if |parts| >= 2 then Some(parts[1]) else None
  }

  /** `if (!token || token !== secret) 403 else next()`. */
  function Authorize(header: Option<string>, secret: Option<string>): (d: Decision)
    ensures d.Reject? ==> d.status == Forbidden && d.message == InvalidTokenMessage
    ensures d.Next? ==> Token(header).Some? && Token(header) == secret
  {
    var token := Token(header);
    if !Truthy(token) || token != secret then Reject(Forbidden, InvalidTokenMessage)
    else Next
  }

  // ---------------------------------------------------------------------------
  // Split and Join

  lemma JoinEmptyFirst(rest: seq<string>)
    requires |rest| >= 1
    ensures Join([""] + rest) == " " + Join(rest)
  {
    var parts := [""] + rest;
    assert |parts| > 1 && parts[0] == "" && parts[1..] == rest;
    assert Join(parts) == "" + " " + Join(rest);
  }

  lemma JoinExtendFirst(c: char, rest: seq<string>)
    requires |rest| >= 1
    ensures Join([[c] + rest[0]] + rest[1..]) == [c] + Join(rest)
  {
    var parts := [[c] + rest[0]] + rest[1..];
    if |rest| > 1 {
      assert parts[1..] == rest[1..];
    }
  }

  lemma {:induction false} JoinSplit(s: string)
    ensures Join(Split(s)) == s
    decreases |s|
  {
    if s != [] {
      JoinSplit(s[1..]);
      if s[0] == ' ' {
        JoinEmptyFirst(Split(s[1..]));
      } else {
        JoinExtendFirst(s[0], Split(s[1..]));
      }
      assert s == [s[0]] + s[1..];
    }
  }

  /** No part contains a space, and there is more than one part exactly when
      s contains a space. */
  lemma {:induction false} SplitParts(s: string)
    ensures forall k :: 0 <= k < |Split(s)| ==> ' ' !in Split(s)[k]
    ensures |Split(s)| == 1 <==> ' ' !in s
    decreases |s|
  {
    if s != [] {
      SplitParts(s[1..]);
      var rest := Split(s[1..]);
      var parts := Split(s);
      if s[0] == ' ' {
        assert parts == [""] + rest;
      } else {
        assert parts == [[s[0]] + rest[0]] + rest[1..];
        assert ' ' !in parts[0] by { assert parts[0] == [s[0]] + rest[0]; }
        forall k | 1 <= k < |parts| ensures ' ' !in parts[k] {
          assert parts[k] == rest[k];
        }
        assert ' ' in s <==> ' ' in s[1..] by { assert s == [s[0]] + s[1..]; }
      }
    }
  }

  /** A word without spaces splits to itself. */
  lemma {:induction false} SplitWord(w: string)
    requires ' ' !in w
    ensures Split(w) == [w]
    decreases |w|
  {
    if w != [] {
      SplitWord(w[1..]);
      assert [w[0]] + w[1..] == w;
    }
  }

  /** A word without spaces followed by one space becomes the first part. */
  lemma {:induction false} SplitAfterWord(w: string, t: string)
    requires ' ' !in w
    ensures Split(w + " " + t) == [w] + Split(t)
    decreases |w|
  {
    if w == [] {
      assert w + " " + t == [' '] + t;
      assert ([' '] + t)[1..] == t;
    } else {
      SplitAfterWord(w[1..], t);
      var s := w + " " + t;
      assert s[0] == w[0];
      assert s[1..] == w[1..] + " " + t;
      assert [w[0]] + w[1..] == w;
    }
  }

  lemma {:induction false} SplitJoin(parts: seq<string>)
    requires |parts| >= 1
    requires forall k :: 0 <= k < |parts| ==> ' ' !in parts[k]
    ensures Split(Join(parts)) == parts
    decreases |parts|
  {
    if |parts| == 1 {
      SplitWord(parts[0]);
    } else {
      SplitJoin(parts[1..]);
      SplitAfterWord(parts[0], Join(parts[1..]));
      assert [parts[0]] + parts[1..] == parts;
    }
  }

  // ---------------------------------------------------------------------------
  // A reference reading of the header by index: the first word ends at the
  // first space; the token is what follows, up to the next space.

  /** Index of the first space in s, or |s| when there is none. */
  function WordEnd(s: string): (i: nat)
    ensures i <= |s|
    ensures forall k :: 0 <= k < i ==> s[k] != ' '
    ensures i < |s| ==> s[i] == ' '
  {
    if s == [] || s[0] == ' ' then 0 else 1 + WordEnd(s[1..])
  }

  lemma {:induction false} SplitAtFirstSpace(s: string)
    ensures Split(s)[0] == s[..WordEnd(s)]
    ensures WordEnd(s) == |s| ==> |Split(s)| == 1
    ensures WordEnd(s) < |s| ==> Split(s)[1..] == Split(s[WordEnd(s) + 1..])
    decreases |s|
  {
    if s != [] && s[0] != ' ' {
      SplitAtFirstSpace(s[1..]);
      if WordEnd(s) < |s| {
        assert s[1..][WordEnd(s[1..]) + 1..] == s[WordEnd(s) + 1..];
      }
      assert [s[0]] + s[1..][..WordEnd(s[1..])] == s[..WordEnd(s)];
    }
  }

  /** The token in index terms: the characters after the first space, up to
      the next space or the end. */
  function SecondWord(h: string): string
    requires WordEnd(h) < |h|
  {
    var rest := h[WordEnd(h) + 1..];
    rest[..WordEnd(rest)]
  }

  lemma TokenIsSecondWord(h: string)
    requires h != ""
    ensures Token(Some(h)).Some? <==> WordEnd(h) < |h|
    ensures WordEnd(h) < |h| ==> Token(Some(h)) == Some(SecondWord(h))
  {
    SplitAtFirstSpace(h);
    if WordEnd(h) < |h| {
      SplitAtFirstSpace(h[WordEnd(h) + 1..]);
      assert Split(h)[1] == Split(h)[1..][0];
    }
  }

  // ---------------------------------------------------------------------------
  // The admit/deny decision

  /** A request is admitted exactly when the header has a second
      space-separated segment that is non-empty and equals the secret. */
  lemma AdmitIff(header: Option<string>, secret: Option<string>)
    ensures Authorize(header, secret).Next? <==>
      header.Some? && |Split(header.value)| >= 2 &&
      Split(header.value)[1] != "" && secret == Some(Split(header.value)[1])
  {
  }

  /** The same decision stated by index, without Split. */
  lemma AdmitIffByIndex(h: string, secret: Option<string>)
    ensures Authorize(Some(h), secret).Next? <==>
      WordEnd(h) < |h| && SecondWord(h) != "" && secret == Some(SecondWord(h))
  {
    if h != "" {
      TokenIsSecondWord(h);
    }
  }

  lemma MissingHeaderDenied(secret: Option<string>)
    ensures Authorize(None, secret) == Reject(Forbidden, InvalidTokenMessage)
  {
  }

  /** A header with no space (the empty header included) has no second
      segment and is denied. */
  lemma SingleWordDenied(h: string, secret: Option<string>)
    requires ' ' !in h
    ensures Authorize(Some(h), secret) == Reject(Forbidden, InvalidTokenMessage)
  {
    SplitWord(h);
  }

  /** `"<scheme> "` and `"<scheme>  <rest>"`: the second segment is empty. */
  lemma EmptyTokenDenied(scheme: string, rest: string, secret: Option<string>)
    requires ' ' !in scheme
    ensures Authorize(Some(scheme + " "), secret).Reject?
    ensures Authorize(Some(scheme + "  " + rest), secret).Reject?
  {
    SplitAfterWord(scheme, "");
    assert scheme + " " + "" == scheme + " ";
    SplitAfterWord(scheme, " " + rest);
    assert scheme + "  " + rest == scheme + " " + (" " + rest);
    assert Split(" " + rest) == [""] + Split(rest) by {
      assert (" " + rest)[1..] == rest;
    }
  }

  /** The scheme word is never inspected and trailing segments are ignored:
      a header made of space-free words `"<w0> <w1> <w2> ..."` is admitted
      exactly when w1 is a non-empty secret, whatever w0 is (`"Basic <secret>"`
      included) and whatever follows w1. */
  lemma SchemeAndTrailingIgnored(words: seq<string>, secret: Option<string>)
    requires |words| >= 2
    requires forall k :: 0 <= k < |words| ==> ' ' !in words[k]
    ensures Authorize(Some(Join(words)), secret).Next? <==> words[1] != "" && secret == Some(words[1])
  {
    SplitJoin(words);
    assert Join(words) == words[0] + " " + Join(words[1..]);
  }

  /** With the conventional header `"Bearer <t>"`, admission is exactly
      equality with a non-empty secret. */
  lemma BearerHeader(t: string, secret: Option<string>)
    requires ' ' !in t
    ensures Authorize(Some("Bearer " + t), secret).Next? <==> t != "" && secret == Some(t)
  {
    SplitAfterWord("Bearer", t);
    SplitWord(t);
    assert "Bearer " + t == "Bearer" + " " + t;
  }

  /** The scheme is not checked: `"Basic <secret>"` is admitted. */
  lemma BasicSchemeAdmitted(t: string)
    requires ' ' !in t && t != ""
    ensures Authorize(Some("Basic " + t), Some(t)) == Next
  {
    SplitAfterWord("Basic", t);
    SplitWord(t);
    assert "Basic " + t == "Basic" + " " + t;
  }

  /** An unset or empty secret admits nothing. */
  lemma NoSecretAdmitsNothing(header: Option<string>, secret: Option<string>)
    requires !Truthy(secret)
    ensures Authorize(header, secret).Reject?
  {
  }
}
