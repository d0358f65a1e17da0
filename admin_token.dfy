/** The stateless admin session token: `generate_admin_token`,
    `verify_admin_token`, and the way the product routes pick the token out
    of the request headers.

    The signed string that itsdangerous produces is opaque to this model.
    What it carries is `TokenData`; turning a presented string back into its
    data (base64, JSON, HMAC check with the server secret) is the foreign
    `unsign` oracle that the routes receive as a parameter. A string that
    was not signed with the secret decodes with `signatureOk == false`. */
module AdminToken {
  import opened Common

  /** The validity window `max_age=60 * 60 * 8`, in seconds. */
  const MaxAgeSeconds: int := 60 * 60 * 8

  /** Salt-separated payload `{'uid': ..., 'role': ...}` with its signing time. */
  datatype TokenData = TokenData(uid: Option<int>, role: Option<string>, issuedAt: int, signatureOk: bool)

  /** A token minted at time `now` for account `userId`. */
  function GenerateAdminToken(userId: int, now: int): (t: TokenData)
    ensures forall later :: now <= later <= now + MaxAgeSeconds ==> VerifyAdminToken(t, later) == Some(userId)
  {
    TokenData(Some(userId), Some("admin"), now, true)
  }

  /** `s.loads(token, max_age=...)` followed by the payload test. A bad
      signature and an expired signature both give None, never an error.
      itsdangerous also refuses a timestamp in the future (negative age). */
  function VerifyAdminToken(t: TokenData, now: int): (r: Option<int>)
  {
    if !t.signatureOk then None
    else if now - t.issuedAt > MaxAgeSeconds || now - t.issuedAt < 0 then None
    else if t.role == Some("admin") && t.uid.Some? then Some(t.uid.value)
    else None
  }

  /** The exact conditions under which a token is accepted, and what it yields. */
  lemma VerifyAcceptsExactly(t: TokenData, now: int)
    ensures VerifyAdminToken(t, now).Some?
        <==> t.signatureOk && 0 <= now - t.issuedAt <= MaxAgeSeconds
             && t.role == Some("admin") && t.uid.Some?
    ensures VerifyAdminToken(t, now).Some? ==> VerifyAdminToken(t, now) == t.uid
  {
  }

  /** A token older than eight hours fails, however well-formed it is. */
  lemma ExpiredTokenRejected(userId: int, issued: int, now: int)
    requires now - issued > MaxAgeSeconds
    ensures VerifyAdminToken(GenerateAdminToken(userId, issued), now) == None
  {
  }

  // ---------------------------------------------------------------------------
  // Token extraction from the request headers
  // ---------------------------------------------------------------------------

  /** The two headers the product routes look at. */
  datatype Headers = Headers(authorization: Option<string>, xAdminToken: Option<string>)

  const BearerPrefix: string := "Bearer "

  predicate OccursAt(s: string, pat: string, i: int) {
    0 <= i && i + |pat| <= |s| && s[i..i + |pat|] == pat
  }

  /** Python's `s.replace(pat, '')`: every non-overlapping occurrence of
      `pat`, scanned left to right, is deleted. */
  function ReplaceAll(s: string, pat: string): (r: string)
    requires pat != []
    ensures |r| <= |s|
    decreases |s|
  {
    if |s| == 0 then []
    else if StartsWith(s, pat) then ReplaceAll(s[|pat|..], pat)
    else [s[0]] + ReplaceAll(s[1..], pat)
  }

  /** A string in which the pattern never occurs is left as it is. */
  lemma {:induction false} ReplaceAllNoOccurrence(s: string, pat: string)
    requires pat != []
    requires forall i :: 0 <= i < |s| ==> !OccursAt(s, pat, i)
    ensures ReplaceAll(s, pat) == s
    decreases |s|
  {
    if |s| > 0 {
      assert !OccursAt(s, pat, 0);
      forall i | 0 <= i < |s[1..]|
        ensures !OccursAt(s[1..], pat, i)
      {
        assert !OccursAt(s, pat, i + 1);
        if i + |pat| <= |s[1..]| {
          assert s[1..][i..i + |pat|] == s[i + 1..i + 1 + |pat|];
        }
      }
      ReplaceAllNoOccurrence(s[1..], pat);
    }
  }

  /** Deleting a leading copy of the pattern, and then the rest. */
  lemma ReplaceAllDropsPrefix(pat: string, s: string)
    requires pat != []
    ensures ReplaceAll(pat + s, pat) == ReplaceAll(s, pat)
  {
  }

  /** A header "Bearer <t>", where `t` itself does not contain "Bearer ",
      is reduced to `t` by the deletion. */
  lemma {:induction false} BearerHeaderPresents(t: string)
    ensures (forall i :: 0 <= i < |t| ==> !OccursAt(t, BearerPrefix, i))
            ==> ReplaceAll(BearerPrefix + t, BearerPrefix) == t
  {
    if forall i :: 0 <= i < |t| ==> !OccursAt(t, BearerPrefix, i) {
      ReplaceAllDropsPrefix(BearerPrefix, t);
      ReplaceAllNoOccurrence(t, BearerPrefix);
    }
  }

  /** The Authorization header is "Bearer <t>" with `t` free of "Bearer ". */
  predicate BearerHeader(h: Headers, t: string) {
    h.authorization == Some(BearerPrefix + t)
    && forall i :: 0 <= i < |t| ==> !OccursAt(t, BearerPrefix, i)
  }

  /** The token presented with a request (app.py, lines 305-306 and 353-354):
      if the Authorization header (default "") starts with "Bearer ", every
      occurrence of "Bearer " in it is deleted; otherwise the X-Admin-Token
      header is used. A header "Bearer <t>" presents `t` whenever `t` does
      not itself contain "Bearer ". */
  function ExtractToken(h: Headers): (tok: Option<string>)
    ensures forall t :: BearerHeader(h, t) ==> tok == Some(t)
    ensures !StartsWith(h.authorization.GetOr(""), BearerPrefix) ==> tok == h.xAdminToken
  {
    var auth := h.authorization.GetOr("");
    if StartsWith(auth, BearerPrefix) then
      var t := auth[|BearerPrefix|..];
      assert auth == BearerPrefix + t;
      BearerHeaderPresents(t);
      Some(ReplaceAll(auth, BearerPrefix))
    else h.xAdminToken
  }

  /** `verify_admin_token(token) if token else None`. */
  function AdminId(h: Headers, now: int, unsign: string -> TokenData): (id: Option<int>)
    ensures id.Some? ==> Truthy(ExtractToken(h))
    ensures Truthy(ExtractToken(h)) ==> id == VerifyAdminToken(unsign(ExtractToken(h).value), now)
  {
    var tok := ExtractToken(h);
    if Truthy(tok) then VerifyAdminToken(unsign(tok.value), now) else None
  }

  /** `if not admin_id: ... 401`: the caller is an admin when the token
      yields a uid that is truthy, so a uid of 0 is refused. */
  predicate IsAuthorizedAdmin(h: Headers, now: int, unsign: string -> TokenData) {
    var id := AdminId(h, now, unsign);
    id.Some? && id.value != 0
  }

  /** Being authorised means a presented, non-empty token decoded to a payload
      whose signature is good, whose age is within eight hours and whose role
      is "admin" with a non-zero uid. */
  lemma AuthorizedMeansValidToken(h: Headers, now: int, unsign: string -> TokenData)
    requires IsAuthorizedAdmin(h, now, unsign)
    ensures var tok := ExtractToken(h);
      Truthy(tok)
      && unsign(tok.value).signatureOk
      && 0 <= now - unsign(tok.value).issuedAt <= MaxAgeSeconds
      && unsign(tok.value).role == Some("admin")
      && unsign(tok.value).uid.Some? && unsign(tok.value).uid.value != 0
  {
  }

  /** Conversely, a request whose Authorization header is "Bearer <t>", with
      `t` non-empty and free of "Bearer ", is an admin's as soon as `t`
      decodes to a well-signed, unexpired admin payload with a non-zero uid. */
  lemma ValidTokenAuthorizes(h: Headers, now: int, unsign: string -> TokenData, t: string)
    requires BearerHeader(h, t) && t != ""
    requires unsign(t).signatureOk && 0 <= now - unsign(t).issuedAt <= MaxAgeSeconds
    requires unsign(t).role == Some("admin") && unsign(t).uid.Some? && unsign(t).uid.value != 0
    ensures IsAuthorizedAdmin(h, now, unsign)
  {
  }

  /** A token minted for account 0 is never accepted by the routes. */
  lemma ZeroUidRefused(h: Headers, now: int, unsign: string -> TokenData)
    requires Truthy(ExtractToken(h))
    requires unsign(ExtractToken(h).value).uid == Some(0)
    ensures !IsAuthorizedAdmin(h, now, unsign)
  {
  }

  /** A character that does not begin the pattern is kept. */
  lemma ReplaceAllKeepsHead(c: char, s: string, pat: string)
    requires pat != [] && c != pat[0]
    ensures ReplaceAll([c] + s, pat) == [c] + ReplaceAll(s, pat)
  {
  }

  /** "Bearer " is removed wherever it occurs, not only at the front: the
      header "Bearer xBearer y" presents the token "xy". */
  lemma BearerRemovedEverywhere()
    ensures ExtractToken(Headers(Some("Bearer xBearer y"), None)) == Some("xy")
  {
    var p := BearerPrefix;
    var tail := "y";
    assert !OccursAt(tail, p, 0);
    ReplaceAllNoOccurrence(tail, p);
    var inner := p + tail;
    ReplaceAllDropsPrefix(p, tail);
    var afterPrefix := ['x'] + inner;
    ReplaceAllKeepsHead('x', inner, p);
    var header := p + afterPrefix;
    ReplaceAllDropsPrefix(p, afterPrefix);
    assert ReplaceAll(header, p) == ['x'] + tail == "xy";
    assert header == "Bearer xBearer y";
    assert StartsWith(header, p);
  }

  /** Deletion passes over a leading part `a` in which no occurrence of the
      pattern starts, not even one reaching into what follows. */
  lemma {:induction false} ReplaceAllSkipsHead(a: string, rest: string, pat: string)
    requires pat != []
    requires forall i :: 0 <= i < |a| ==> !OccursAt(a + rest, pat, i)
    ensures ReplaceAll(a + rest, pat) == a + ReplaceAll(rest, pat)
    decreases |a|
  {
    if |a| > 0 {
      var s := a + rest;
      assert !OccursAt(s, pat, 0);
      assert !StartsWith(s, pat);
      assert s[1..] == a[1..] + rest;
      forall i | 0 <= i < |a[1..]| ensures !OccursAt(a[1..] + rest, pat, i) {
        assert !OccursAt(s, pat, i + 1);
        if i + |pat| <= |a[1..] + rest| {
          assert (a[1..] + rest)[i..i + |pat|] == s[i + 1..i + 1 + |pat|];
        }
      }
      assert ReplaceAll(s, pat) == [a[0]] + ReplaceAll(a[1..] + rest, pat);
      ReplaceAllSkipsHead(a[1..], rest, pat);
      assert [a[0]] + (a[1..] + ReplaceAll(rest, pat)) == a + ReplaceAll(rest, pat);
    } else {
      assert a + rest == rest;
    }
  }

  /** "Bearer " is deleted at every position: for any `a` and `b` free of
      "Bearer ", the header "Bearer " + a + "Bearer " + b presents a + b,
      whatever the X-Admin-Token header holds. No occurrence can straddle
      the joint, because 'B' appears in "Bearer " only at its start. */
  lemma InnerBearerDeleted(a: string, b: string, x: Option<string>)
    requires forall i :: 0 <= i < |a| ==> !OccursAt(a, BearerPrefix, i)
    requires forall i :: 0 <= i < |b| ==> !OccursAt(b, BearerPrefix, i)
    ensures ExtractToken(Headers(Some(BearerPrefix + a + BearerPrefix + b), x)) == Some(a + b)
  {
    var p := BearerPrefix;
    var rest := p + b;
    var s := a + rest;
    forall i | 0 <= i < |a| ensures !OccursAt(s, p, i) {
      if i + |p| <= |a| {
        assert s[i..i + |p|] == a[i..i + |p|];
        assert !OccursAt(a, p, i);
      } else if i + |p| <= |s| {
        var k := |a| - i;
        assert s[i..i + |p|][k] == s[|a|] == 'B';
        assert p[k] != 'B';
      }
    }
    ReplaceAllSkipsHead(a, rest, p);
    BearerHeaderPresents(b);
    ReplaceAllDropsPrefix(p, s);
    var header := p + a + p + b;
    assert header == p + s;
    assert StartsWith(header, p);
  }
}
