/** The two spellings of base64: standard with `=` padding, and unpadded base64url. */
module Base64Url {

  function Replace(s: string, a: char, b: char): (r: string)
    ensures |r| == |s| && forall i :: 0 <= i < |s| ==> r[i] == if s[i] == a then b else s[i]
  {
    seq(|s|, i requires 0 <= i < |s| => if s[i] == a then b else s[i])
  }

  /** The string without its trailing `=` characters. */
  function Stripped(s: string): (r: string)
    ensures r <= s
    ensures forall i :: |r| <= i < |s| ==> s[i] == '='
    ensures r == "" || r[|r| - 1] != '='
  {
    if s != "" && s[|s| - 1] == '=' then Stripped(s[..|s| - 1]) else s
  }

  function ToBase64Url(s: string): string {
    Replace(Replace(Stripped(s), '/', '_'), '+', '-')
  }

  function Padding(n: nat): (k: nat)
    ensures k < 4 && (n + k) % 4 == 0
  {
    (4 - n % 4) % 4
  }

  function Equals(k: nat): (r: string)
    ensures |r| == k && forall i :: 0 <= i < k ==> r[i] == '='
  {
    seq(k, _ => '=')
  }

  function FromBase64Url(s: string): string {
    Replace(Replace(s, '-', '+'), '_', '/') + Equals(Padding(|s|))
  }

  /** The loop that pads: it stops at the first multiple of four. */
  method PadBase64(base64Url: string) returns (base64: string)
    ensures base64 == FromBase64Url(base64Url)
  {
    base64 := Replace(Replace(base64Url, '-', '+'), '_', '/');
    ghost var unpadded := base64;
    while |base64| % 4 != 0
      invariant |unpadded| <= |base64| <= |unpadded| + Padding(|unpadded|)
      invariant base64 == unpadded + Equals(|base64| - |unpadded|)
      decreases |unpadded| + Padding(|unpadded|) - |base64|
    {
      base64 := base64 + ['='];
      assert base64 == unpadded + Equals(|base64| - |unpadded|);
    }
    assert |base64| - |unpadded| == Padding(|unpadded|);
  }

  /** What padded base64 looks like: whole groups of four, at most three `=`, and neither `-` nor `_`. */
  predicate Padded(s: string) {
    |s| % 4 == 0 && |s| < |Stripped(s)| + 4 && '-' !in s && '_' !in s
  }

  /** What unpadded base64url looks like. */
  predicate Unpadded(s: string) {
    (s == "" || s[|s| - 1] != '=') && '+' !in s && '/' !in s
  }

  lemma StrippedUnique(s: string, r: string)
    requires r <= s && (r == "" || r[|r| - 1] != '=')
    requires forall i :: |r| <= i < |s| ==> s[i] == '='
    ensures Stripped(s) == r
  {
    var t := Stripped(s);
    assert t != "" ==> s[|t| - 1] == t[|t| - 1];
    assert r != "" ==> s[|r| - 1] == r[|r| - 1];
    assert |r| == |t|;
  }

  /** Standard to base64url and back is the identity on exactly the padded strings. */
  lemma StandardRoundTrip(s: string)
    ensures FromBase64Url(ToBase64Url(s)) == s <==> Padded(s)
  {
    var t := Stripped(s);
    var back := FromBase64Url(ToBase64Url(s));
    assert |back| == |t| + Padding(|t|);
    if Padded(s) {
      assert Padding(|t|) == |s| - |t|;
      assert forall i :: 0 <= i < |t| ==> s[i] in s && back[i] == s[i];
      assert back == s;
    }
    if back == s {
      assert |t| == |s| - Padding(|t|);
      forall i | 0 <= i < |s| ensures s[i] != '-' && s[i] != '_' {
        assert back[i] == s[i];
      }
    }
  }

  /** Base64url to standard and back is the identity on exactly the unpadded strings. */
  lemma UrlRoundTrip(s: string)
    ensures ToBase64Url(FromBase64Url(s)) == s <==> Unpadded(s)
  {
    var plain := Replace(Replace(s, '-', '+'), '_', '/');
    var padded := FromBase64Url(s);
    var there := ToBase64Url(padded);
    if Unpadded(s) {
      StrippedUnique(padded, plain);
      assert forall i :: 0 <= i < |s| ==> s[i] in s && there[i] == s[i];
      assert there == s;
    }
    if there == s {
      assert |Stripped(padded)| == |s|;
      assert Stripped(padded) == plain;
      forall i | 0 <= i < |s| ensures s[i] != '+' && s[i] != '/' {
        assert there[i] == s[i];
      }
    }
  }
}
