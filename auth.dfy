/** `src/http/auth.rs`: the Basic authentication scheme of section 2 of
    RFC 7617. A client sends `Authorization: Basic <base64 of user:password>`
    and the server compares the header with the value it expects. */
module HttpAuth {
  import opened Wrappers
  import opened RustStr
  import Base64
  import opened HttpRequest

  /** The bytes the encoder sees: `username:password` in UTF-8. */
  function CredentialBytes(username: string, password: string): (b: seq<byte>)
    ensures |b| == Utf8Length(username + ":" + password)
  {
    Utf8Encode(username + ":" + password)
  }

  /** The header value a client with these credentials sends. */
  function ExpectedKey(username: string, password: string): (key: string)
    ensures |key| == 6 + 4 * ((Utf8Length(username + ":" + password) + 2) / 3)
    ensures key[..6] == "Basic "
  {
    "Basic " + Base64.Encode(CredentialBytes(username, password))
  }

  /** `basic_auth_validate`: the request's `Authorization` header is present
      and is exactly the expected value. A header that passes carries the
      credentials: `Basic `, then base64 that decodes to exactly
      `username:password`. It reads the request only. */
  function BasicAuthValidate(req: Request, username: string, password: string): (ok: bool)
    ensures req.GetHeader("Authorization").None? ==> !ok
    ensures ok <==> req.GetHeader("Authorization") == Some(ExpectedKey(username, password))
    ensures ok ==>
      var v := req.GetHeader("Authorization").value;
      |v| >= 6 && v[..6] == "Basic " && Base64.Decode(v[6..]) == Some(CredentialBytes(username, password))
  {
    var key := ExpectedKey(username, password);
    assert key[6..] == Base64.Encode(CredentialBytes(username, password));
    Base64.DecodeEncode(CredentialBytes(username, password));
    req.GetHeader("Authorization") == Some(key)
  }

  /** Two ASCII credential pairs that both validate the same request are the
      same `username:password` text. */
  lemma CredentialsDistinguished(req: Request, u1: string, p1: string, u2: string, p2: string)
    requires IsAscii(u1 + ":" + p1) && IsAscii(u2 + ":" + p2)
    requires BasicAuthValidate(req, u1, p1) && BasicAuthValidate(req, u2, p2)
    ensures u1 + ":" + p1 == u2 + ":" + p2
  {
    var k1, k2 := ExpectedKey(u1, p1), ExpectedKey(u2, p2);
    assert k1[6..] == Base64.Encode(CredentialBytes(u1, p1));
    assert k2[6..] == Base64.Encode(CredentialBytes(u2, p2));
    Base64.EncodeInjective(CredentialBytes(u1, p1), CredentialBytes(u2, p2));
    AsciiBytesInjective(u1 + ":" + p1, u2 + ":" + p2);
  }

  /** ASCII text is determined by its UTF-8 bytes. */
  lemma AsciiBytesInjective(s: string, t: string)
    requires IsAscii(s) && IsAscii(t) && Utf8Encode(s) == Utf8Encode(t)
    ensures s == t
  {
    Utf8AsciiBytes(s);
    Utf8AsciiBytes(t);
    forall k | 0 <= k < |s| ensures s[k] == t[k] {
      assert Utf8Encode(s)[k] == s[k] as int;
    }
  }

  /** For `user`/`pass` the expected value is the key the older `/admin`
      route compares with. */
  lemma UserPassKey()
    ensures ExpectedKey("user", "pass") == ADMIN_KEY
  {
    UserPassBytes();
    UserPassEncoded();
  }

  lemma UserPassBytes()
    ensures CredentialBytes("user", "pass") == [0x75, 0x73, 0x65, 0x72, 0x3A, 0x70, 0x61, 0x73, 0x73]
  {
    Utf8Concat("user" + ":", "pass");
    Utf8Concat("user", ":");
    assert Utf8Encode("user") == [0x75, 0x73, 0x65, 0x72];
    assert Utf8Encode(":") == [0x3A];
    assert Utf8Encode("pass") == [0x70, 0x61, 0x73, 0x73];
  }

  /** `user:pass` is three full 24-bit groups, so no padding. */
  lemma UserPassEncoded()
    ensures Base64.Encode([0x75, 0x73, 0x65, 0x72, 0x3A, 0x70, 0x61, 0x73, 0x73]) == "dXNlcjpwYXNz"
  {
    var third: seq<byte> := [0x61, 0x73, 0x73];
    var second: seq<byte> := [0x72, 0x3A, 0x70] + third;
    assert [0x75, 0x73, 0x65, 0x72, 0x3A, 0x70, 0x61, 0x73, 0x73] == [0x75, 0x73, 0x65] + second;
    Base64.EncodeGroupThen(0x75, 0x73, 0x65, second);
    Base64.EncodeGroupThen(0x72, 0x3A, 0x70, third);
    Base64.EncodeGroupThen(0x61, 0x73, 0x73, []);
    assert third == third + [];
    UserPassGroups();
  }

  lemma UserPassGroups()
    ensures Base64.EncodeGroup(0x75, 0x73, 0x65) == "dXNl"
    ensures Base64.EncodeGroup(0x72, 0x3A, 0x70) == "cjpw"
    ensures Base64.EncodeGroup(0x61, 0x73, 0x73) == "YXNz"
  {
    assert Base64.EncodeGroup(0x75, 0x73, 0x65) == "dXNl";
    assert Base64.EncodeGroup(0x72, 0x3A, 0x70) == "cjpw";
  }

  /** The credentials of the current configuration, `user`/`password`, do not
      give the key the older `/admin` route hard-codes: that route refuses them. */
  lemma ConfigCredentialsNotLegacyKey()
    ensures ExpectedKey("user", "password") != ADMIN_KEY
  {
    var text := "user" + ":" + "password";
    assert IsAscii(text);
    Utf8AsciiLength(text);
  }
}
