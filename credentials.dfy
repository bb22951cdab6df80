/**
  The clone URL that `clone_project` builds from a project's
  `http_url_to_repo`: the access token is put in the user-info part of the
  URL, as `oauth2:<token>`, and then every occurrence of the server's
  host name is replaced by its fixed address.
 */
module CloneUrl {
  import opened PyStr
  import opened Wrappers

  const SCHEME_SEP := "://"
  const AT := "@"
  /** The user-info prefix put before the token. */
  const USER := "oauth2:"
  /** The host-name literal that the rewritten URL has replaced ... */
  const HOST_NAME := "gitlab.navclips.com"
  /** ... by this address. */
  const HOST_ADDRESS := "47.107.158.127"

  /** The credential-bearing URL before the host substitution. With an `@` in
      the URL the part before the first `://` of the text before the first `@`
      is the scheme and the text between the first and the second `@` follows
      the credential; without one the URL is split on `://`. `None` is the
      IndexError Python raises when the URL holds neither `@` nor `://`. */
  function TokenUrl(url: string, token: string): (r: Option<string>)
    ensures r.None? <==> !Contains(url, AT) && !Contains(url, SCHEME_SEP)
    ensures r.Some? ==> Contains(r.value, SCHEME_SEP + USER + token + AT)
  {
    SplitCount(url, AT);
    SplitCount(url, SCHEME_SEP);
    if Contains(url, AT) then
      var parts := Split(url, AT);
      var scheme := Split(parts[0], SCHEME_SEP)[0];
      CredentialInside(scheme, token, parts[1]);
      Some(scheme + SCHEME_SEP + USER + token + AT + parts[1])
    else
      var parts := Split(url, SCHEME_SEP);
      if |parts| < 2 then None
      else
        CredentialInside(parts[0], token, parts[1]);
        Some(parts[0] + SCHEME_SEP + USER + token + AT + parts[1])
  }

  /** The URL handed to `git clone --mirror`, or `None` when building it raised:
      the credential URL with every occurrence of the host name replaced, i.e.
      `HOST_ADDRESS.join(u.split(HOST_NAME))`; a credential URL without the host
      name is passed on as it is. */
  function RewriteUrl(url: string, token: string): (r: Option<string>)
    ensures r.None? <==> TokenUrl(url, token).None?
    ensures r.Some? ==> r.value == Join(Split(TokenUrl(url, token).value, HOST_NAME), HOST_ADDRESS)
    ensures r.Some? && !Contains(TokenUrl(url, token).value, HOST_NAME) ==> r == TokenUrl(url, token)
  {
    match TokenUrl(url, token)
    case None => None
    case Some(u) =>
      ReplaceAllIsJoinOfSplit(u, HOST_NAME, HOST_ADDRESS);
      Some(ReplaceAll(u, HOST_NAME, HOST_ADDRESS))
  }

  /** The credential sits between the scheme separator and the kept rest. */
  lemma CredentialInside(scheme: string, token: string, rest: string)
    ensures Contains(scheme + SCHEME_SEP + USER + token + AT + rest, SCHEME_SEP + USER + token + AT)
  {
    var pat := SCHEME_SEP + USER + token + AT;
    var v := scheme + SCHEME_SEP + USER + token + AT + rest;
    assert v == scheme + pat + rest;
    assert v[|scheme|..|scheme| + |pat|] == pat;
    assert StartsAt(v, |scheme|, pat);
  }

  lemma SeparatorsUnbordered()
    ensures Unbordered(AT) && Unbordered(SCHEME_SEP)
  {
    assert SCHEME_SEP[1..] == "//" && SCHEME_SEP[..2] == ":/";
    assert SCHEME_SEP[2..] == "/" && SCHEME_SEP[..1] == ":";
  }

  /** A prefix of a string free of `pat` is free of it too. */
  lemma {:induction false} PrefixFree(x: string, y: string, pat: string)
    requires !Contains(x + y, pat)
    ensures !Contains(x, pat)
  {
    forall i | 0 <= i <= |x|
      ensures !StartsAt(x, i, pat)
    {
      assert !StartsAt(x + y, i, pat);
      if i + |pat| <= |x| {
        assert (x + y)[i..i + |pat|] == x[i..i + |pat|];
      }
    }
  }

  /** A URL without user-info: the credential is inserted after the scheme and
      the rest of the URL is kept. */
  lemma {:induction false} InsertsCredential(scheme: string, rest: string, token: string)
    requires !Contains(scheme + SCHEME_SEP + rest, AT)
    requires !Contains(scheme, SCHEME_SEP) && !Contains(rest, SCHEME_SEP)
    ensures TokenUrl(scheme + SCHEME_SEP + rest, token)
            == Some(scheme + SCHEME_SEP + USER + token + AT + rest)
  {
    SeparatorsUnbordered();
    SplitAfterFree(scheme, SCHEME_SEP, rest);
    SplitFree(rest, SCHEME_SEP);
  }

  /** A URL with user-info: the existing user-info is replaced by the credential,
      not kept beside it. */
  lemma {:induction false} ReplacesUserInfo(scheme: string, user: string, rest: string, token: string)
    requires !Contains(scheme + SCHEME_SEP + user, AT) && !Contains(rest, AT)
    requires !Contains(scheme, SCHEME_SEP)
    ensures TokenUrl(scheme + SCHEME_SEP + user + AT + rest, token)
            == Some(scheme + SCHEME_SEP + USER + token + AT + rest)
  {
    SeparatorsUnbordered();
    var head := scheme + SCHEME_SEP + user;
    SplitAfterFree(head, AT, rest);
    SplitFree(rest, AT);
    SplitAfterFree(scheme, SCHEME_SEP, user);
    assert Split(head + AT + rest, AT) == [head, rest];
    assert (head + AT + rest)[|head|..|head| + 1] == AT;
    assert StartsAt(head + AT + rest, |head|, AT);
  }

  /** So a URL with user-info and the same URL without it give the same clone URL. */
  lemma {:induction false} UserInfoIrrelevant(scheme: string, user: string, rest: string, token: string)
    requires !Contains(scheme + SCHEME_SEP + user, AT) && !Contains(rest, AT)
    requires !Contains(scheme, SCHEME_SEP) && !Contains(rest, SCHEME_SEP)
    ensures TokenUrl(scheme + SCHEME_SEP + user + AT + rest, token)
            == TokenUrl(scheme + SCHEME_SEP + rest, token)
  {
    assert scheme + SCHEME_SEP + user == scheme + (SCHEME_SEP + user);
    PrefixFree(scheme, SCHEME_SEP + user, AT);
    PiecesFreeJoinFree(scheme, rest);
    ReplacesUserInfo(scheme, user, rest, token);
    InsertsCredential(scheme, rest, token);
  }

  /** `scheme + "://" + rest` holds an `@` only where one of its parts does. */
  lemma {:induction false} PiecesFreeJoinFree(scheme: string, rest: string)
    requires !Contains(scheme, AT) && !Contains(rest, AT)
    ensures !Contains(scheme + SCHEME_SEP + rest, AT)
  {
    var s := scheme + SCHEME_SEP + rest;
    forall i | 0 <= i <= |s|
      ensures !StartsAt(s, i, AT)
    {
      if i < |scheme| {
        assert s[i..i + 1] == scheme[i..i + 1];
        assert !StartsAt(scheme, i, AT);
      } else if i < |scheme| + 3 {
        assert s[i] in SCHEME_SEP;
      } else if i < |s| {
        var k := i - |scheme| - 3;
        assert s[i..i + 1] == rest[k..k + 1];
        assert !StartsAt(rest, k, AT);
      }
    }
  }

  /** Only the text up to the second `@` is kept: everything after it is
      dropped from the clone URL. */
  lemma {:induction false} DropsAfterSecondAt(a: string, b: string, c: string, token: string)
    requires !Contains(a, AT) && !Contains(b, AT)
    ensures TokenUrl(a + AT + b + AT + c, token) == TokenUrl(a + AT + b, token)
  {
    SeparatorsUnbordered();
    var long := a + AT + (b + AT + c);
    assert a + AT + b + AT + c == long;
    SplitAfterFree(a, AT, b + AT + c);
    SplitAfterFree(b, AT, c);
    var longParts := Split(long, AT);
    assert longParts[0] == a && longParts[1] == b;
    SplitAfterFree(a, AT, b);
    SplitFree(b, AT);
    var shortParts := Split(a + AT + b, AT);
    assert shortParts == [a, b];
    assert long[|a|..|a| + 1] == AT && (a + AT + b)[|a|..|a| + 1] == AT;
    assert StartsAt(long, |a|, AT) && StartsAt(a + AT + b, |a|, AT);
  }

  /** Without an `@`, only the text up to the second `://` is kept. */
  lemma {:induction false} DropsAfterSecondSchemeSep(a: string, b: string, c: string, token: string)
    requires !Contains(a + SCHEME_SEP + b + SCHEME_SEP + c, AT)
    requires !Contains(a, SCHEME_SEP) && !Contains(b, SCHEME_SEP)
    ensures TokenUrl(a + SCHEME_SEP + b + SCHEME_SEP + c, token)
            == TokenUrl(a + SCHEME_SEP + b, token)
  {
    SeparatorsUnbordered();
    var x := a + SCHEME_SEP + b;
    assert x + SCHEME_SEP + c == a + SCHEME_SEP + (b + SCHEME_SEP + c);
    assert x + (SCHEME_SEP + c) == x + SCHEME_SEP + c;
    PrefixFree(x, SCHEME_SEP + c, AT);
    SplitAfterFree(a, SCHEME_SEP, b + SCHEME_SEP + c);
    SplitAfterFree(b, SCHEME_SEP, c);
    SplitAfterFree(a, SCHEME_SEP, b);
    SplitFree(b, SCHEME_SEP);
  }
}
