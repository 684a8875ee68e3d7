/** Redaction of JSON bodies before they reach a log line or an error message. */
module Telemetry {
  import opened Prelude
  import opened Json

  const SENSITIVE_KEY_FRAGMENTS := ["token", "secret", "authorization", "code_verifier",
                                    "device_auth_id", "user_code", "password", "api_key"]

  const OAUTH_EXACT_SENSITIVE_KEYS := ["code", "state", "device_code", "user_code"]

  const MAX_BODY_CHARS: nat := 500

  const REDACTED := Str("<redacted>")

  function AsciiLower(c: char): char {
    if 'A' <= c <= 'Z' then (c as int + 32) as char else c
  }

  function Lower(s: string): string {
    seq(|s|, i requires 0 <= i < |s| => AsciiLower(s[i]))
  }

  predicate Contains(s: string, fragment: string) {
    fragment <= s || (s != [] && Contains(s[1..], fragment))
  }

  lemma {:induction false} ContainsIsSomewhere(s: string, fragment: string)
    ensures Contains(s, fragment) <==> exists i :: 0 <= i <= |s| && fragment <= s[i..]
  {
    if fragment <= s {
      assert s[0..] == s;
    } else if s != [] {
      ContainsIsSomewhere(s[1..], fragment);
      if i :| 0 <= i <= |s[1..]| && fragment <= s[1..][i..] {
        assert s[i + 1..] == s[1..][i..];
      }
      if i :| 0 <= i <= |s| && fragment <= s[i..] {
        assert s[0..] == s;
        assert s[i..] == s[1..][i - 1..];
      }
    }
  }

  predicate IsSensitiveKey(key: string) {
    exists i :: 0 <= i < |SENSITIVE_KEY_FRAGMENTS| && Contains(Lower(key), SENSITIVE_KEY_FRAGMENTS[i])
  }

  predicate IsExactSensitiveKey(key: string, exact: seq<string>) {
    exists i :: 0 <= i < |exact| && Lower(key) == Lower(exact[i])
  }

  predicate Hidden(key: string, exact: seq<string>) {
    IsSensitiveKey(key) || IsExactSensitiveKey(key, exact)
  }

  // ---- Which keys are hidden

  /** Two characters that are the same ASCII letter, or the same at all. */
  predicate SameLetter(c: char, d: char) {
    c == d || ('A' <= c <= 'Z' && d as int == c as int + 32) || ('A' <= d <= 'Z' && c as int == d as int + 32)
  }

  predicate SameButCase(a: string, b: string) {
    |a| == |b| && forall i :: 0 <= i < |a| ==> SameLetter(a[i], b[i])
  }

  /** The fragment stands somewhere in the key, in any case. */
  predicate StandsIn(key: string, fragment: string) {
    exists i :: 0 <= i <= |key| && StandsAt(key, fragment, i)
  }

  predicate StandsAt(key: string, fragment: string, i: nat) {
    i + |fragment| <= |key| && SameButCase(key[i..i + |fragment|], fragment)
  }

  predicate NoCapitals(s: string) {
    forall i :: 0 <= i < |s| ==> !('A' <= s[i] <= 'Z')
  }

  lemma LowerIsSameButCase(a: string, b: string)
    requires NoCapitals(b)
    ensures Lower(a) == b <==> SameButCase(a, b)
  {
    if SameButCase(a, b) {
      forall i | 0 <= i < |a| ensures Lower(a)[i] == b[i] {
        assert SameLetter(a[i], b[i]);
      }
    }
    if Lower(a) == b {
      forall i | 0 <= i < |a| ensures SameLetter(a[i], b[i]) {
        assert Lower(a)[i] == b[i];
      }
    }
  }

  lemma SameLower(a: string, b: string)
    requires SameButCase(a, b)
    ensures Lower(a) == Lower(b)
  {
    forall i | 0 <= i < |a| ensures Lower(a)[i] == Lower(b)[i] {
      assert SameLetter(a[i], b[i]);
    }
  }

  lemma ContainsExactlyWhenItStandsIn(key: string, fragment: string)
    requires NoCapitals(fragment)
    ensures Contains(Lower(key), fragment) <==> StandsIn(key, fragment)
  {
    ContainsIsSomewhere(Lower(key), fragment);
    forall i: nat | i <= |key| ensures fragment <= Lower(key)[i..] <==> StandsAt(key, fragment, i) {
      if i + |fragment| <= |key| {
        assert Lower(key)[i..][..|fragment|] == Lower(key[i..i + |fragment|]);
        LowerIsSameButCase(key[i..i + |fragment|], fragment);
      }
    }
  }

  /** Keys that agree up to the case of ASCII letters are hidden alike. */
  lemma HidingIgnoresCase(a: string, b: string, exact: seq<string>)
    requires SameButCase(a, b)
    ensures Hidden(a, exact) <==> Hidden(b, exact)
  {
    SameLower(a, b);
  }

  lemma FragmentsHaveNoCapitals()
    ensures forall i :: 0 <= i < |SENSITIVE_KEY_FRAGMENTS| ==> NoCapitals(SENSITIVE_KEY_FRAGMENTS[i])
    ensures forall i :: 0 <= i < |OAUTH_EXACT_SENSITIVE_KEYS| ==> NoCapitals(OAUTH_EXACT_SENSITIVE_KEYS[i])
  {
  }

  /** One of the eight fragments stands in the key, in any case. */
  predicate NamesASecret(key: string) {
    || StandsIn(key, "token") || StandsIn(key, "secret") || StandsIn(key, "authorization")
    || StandsIn(key, "code_verifier") || StandsIn(key, "device_auth_id") || StandsIn(key, "user_code")
    || StandsIn(key, "password") || StandsIn(key, "api_key")
  }

  lemma SensitiveKeysAreThese(key: string)
    ensures IsSensitiveKey(key) <==> NamesASecret(key)
  {
    FragmentsHaveNoCapitals();
    forall i | 0 <= i < |SENSITIVE_KEY_FRAGMENTS|
      ensures Contains(Lower(key), SENSITIVE_KEY_FRAGMENTS[i]) <==> StandsIn(key, SENSITIVE_KEY_FRAGMENTS[i])
    {
      ContainsExactlyWhenItStandsIn(key, SENSITIVE_KEY_FRAGMENTS[i]);
    }
    var f := SENSITIVE_KEY_FRAGMENTS;
    assert IsSensitiveKey(key) <==>
             || StandsIn(key, f[0]) || StandsIn(key, f[1]) || StandsIn(key, f[2]) || StandsIn(key, f[3])
             || StandsIn(key, f[4]) || StandsIn(key, f[5]) || StandsIn(key, f[6]) || StandsIn(key, f[7]);
  }

  lemma ExactKeysAreThese(key: string)
    ensures IsExactSensitiveKey(key, OAUTH_EXACT_SENSITIVE_KEYS) <==>
              || SameButCase(key, "code") || SameButCase(key, "state")
              || SameButCase(key, "device_code") || SameButCase(key, "user_code")
    ensures !IsExactSensitiveKey(key, [])
  {
    FragmentsHaveNoCapitals();
    var e := OAUTH_EXACT_SENSITIVE_KEYS;
    forall i | 0 <= i < |e| ensures Lower(key) == Lower(e[i]) <==> SameButCase(key, e[i]) {
      LowerIsSameButCase(e[i], e[i]);
      LowerIsSameButCase(key, e[i]);
    }
    assert IsExactSensitiveKey(key, e) <==>
             SameButCase(key, e[0]) || SameButCase(key, e[1]) || SameButCase(key, e[2]) || SameButCase(key, e[3]);
  }

  /** The general redaction hides a key if and only if one of eight fragments stands
      in it, in any case; the OAuth redaction hides four keys in addition, in any
      case. */
  lemma HiddenKeysAreThese(key: string)
    ensures Hidden(key, []) <==> NamesASecret(key)
    ensures Hidden(key, OAUTH_EXACT_SENSITIVE_KEYS) <==>
              || NamesASecret(key)
              || SameButCase(key, "code") || SameButCase(key, "state")
              || SameButCase(key, "device_code") || SameButCase(key, "user_code")
  {
    SensitiveKeysAreThese(key);
    ExactKeysAreThese(key);
  }

  function Redacted(v: Json, exact: seq<string>): Json {
    match v
    case Obj(fields) =>
      Obj(map key | key in fields :: if Hidden(key, exact) then REDACTED else Redacted(fields[key], exact))
    case Arr(items) =>
      Arr(seq(|items|, i requires 0 <= i < |items| => Redacted(items[i], exact)))
    case _ => v
  }

  /** The walk the program makes, one field and one item at a time. */
  method RedactJson(v: Json, exact: seq<string>) returns (r: Json)
    ensures r == Redacted(v, exact)
    decreases v
  {
    match v {
      case Obj(fields) =>
        var out := fields;
        var todo := fields.Keys;
        while todo != {}
          invariant todo <= fields.Keys == out.Keys
          invariant forall key :: key in todo ==> out[key] == fields[key]
          invariant forall key :: key in fields && key !in todo ==>
                      out[key] == if Hidden(key, exact) then REDACTED else Redacted(fields[key], exact)
          decreases todo
        {
          var key :| key in todo;
          if Hidden(key, exact) {
            out := out[key := REDACTED];
          } else {
            var child := RedactJson(fields[key], exact);
            out := out[key := child];
          }
          todo := todo - {key};
        }
        r := Obj(out);
      case Arr(items) =>
        var out := items;
        var i := 0;
        while i < |items|
          invariant 0 <= i <= |items| == |out|
          invariant forall k :: 0 <= k < i ==> out[k] == Redacted(items[k], exact)
          invariant forall k :: i <= k < |items| ==> out[k] == items[k]
        {
          var child := RedactJson(items[i], exact);
          out := out[i := child];
          i := i + 1;
        }
        r := Arr(out);
      case _ =>
        r := v;
    }
  }

  // ---- What a redacted body still tells

  /** Two bodies that differ at most in the values of hidden keys. */
  predicate Agree(a: Json, b: Json, exact: seq<string>) {
    match (a, b)
    case (Obj(f), Obj(g)) =>
      && f.Keys == g.Keys
      && forall key :: key in f ==> Hidden(key, exact) || Agree(f[key], g[key], exact)
    case (Arr(xs), Arr(ys)) =>
      && |xs| == |ys|
      && forall i :: 0 <= i < |xs| ==> Agree(xs[i], ys[i], exact)
    case _ => a == b
  }

  /** Redaction tells exactly what is outside hidden keys: two bodies come out
      equal if and only if they agree there. */
  lemma {:induction false} RedactionHidesExactlyTheHidden(a: Json, b: Json, exact: seq<string>)
    ensures Redacted(a, exact) == Redacted(b, exact) <==> Agree(a, b, exact)
    decreases a
  {
    match (a, b) {
      case (Obj(f), Obj(g)) =>
        forall key | key in f && key in g && !Hidden(key, exact) {
          RedactionHidesExactlyTheHidden(f[key], g[key], exact);
        }
        var x, y := Redacted(a, exact).fields, Redacted(b, exact).fields;
        assert x.Keys == f.Keys && y.Keys == g.Keys;
        if x == y {
          forall key | key in f ensures Hidden(key, exact) || Agree(f[key], g[key], exact) {
            assert x[key] == y[key];
          }
        }
      case (Arr(xs), Arr(ys)) =>
        forall i | 0 <= i < |xs| && i < |ys| {
          RedactionHidesExactlyTheHidden(xs[i], ys[i], exact);
        }
        var p, q := Redacted(a, exact).items, Redacted(b, exact).items;
        if p == q {
          forall i | 0 <= i < |xs| ensures Agree(xs[i], ys[i], exact) {
            assert p[i] == q[i];
          }
        }
      case _ =>
    }
  }

  lemma {:induction false} NarrowFirstAbsorbs(v: Json, narrow: seq<string>, wide: seq<string>)
    requires forall key :: Hidden(key, narrow) ==> Hidden(key, wide)
    ensures Redacted(Redacted(v, narrow), wide) == Redacted(v, wide)
  {
    match v {
      case Obj(fields) =>
        forall key | key in fields {
          NarrowFirstAbsorbs(fields[key], narrow, wide);
        }
        assert Redacted(Redacted(v, narrow), wide).fields == Redacted(v, wide).fields;
      case Arr(items) =>
        forall i | 0 <= i < |items| {
          NarrowFirstAbsorbs(items[i], narrow, wide);
        }
        assert Redacted(Redacted(v, narrow), wide).items == Redacted(v, wide).items;
      case _ =>
    }
  }

  lemma {:induction false} WideFirstAbsorbs(v: Json, narrow: seq<string>, wide: seq<string>)
    requires forall key :: Hidden(key, narrow) ==> Hidden(key, wide)
    ensures Redacted(Redacted(v, wide), narrow) == Redacted(v, wide)
  {
    match v {
      case Obj(fields) =>
        forall key | key in fields {
          WideFirstAbsorbs(fields[key], narrow, wide);
        }
        assert Redacted(Redacted(v, wide), narrow).fields == Redacted(v, wide).fields;
      case Arr(items) =>
        forall i | 0 <= i < |items| {
          WideFirstAbsorbs(items[i], narrow, wide);
        }
        assert Redacted(Redacted(v, wide), narrow).items == Redacted(v, wide).items;
      case _ =>
    }
  }

  /** A redaction absorbs a narrower one made before it or after it; with equal
      key lists this says that redacting twice is redacting once. */
  lemma WiderRedactionAbsorbs(v: Json, narrow: seq<string>, wide: seq<string>)
    requires forall key :: Hidden(key, narrow) ==> Hidden(key, wide)
    ensures Redacted(Redacted(v, narrow), wide) == Redacted(v, wide)
    ensures Redacted(Redacted(v, wide), narrow) == Redacted(v, wide)
  {
    NarrowFirstAbsorbs(v, narrow, wide);
    WideFirstAbsorbs(v, narrow, wide);
  }

  lemma OauthRedactionAbsorbsTheGeneral(v: Json)
    ensures Redacted(Redacted(v, []), OAUTH_EXACT_SENSITIVE_KEYS) == Redacted(v, OAUTH_EXACT_SENSITIVE_KEYS)
    ensures Redacted(Redacted(v, OAUTH_EXACT_SENSITIVE_KEYS), []) == Redacted(v, OAUTH_EXACT_SENSITIVE_KEYS)
    ensures Redacted(Redacted(v, []), []) == Redacted(v, [])
  {
    WiderRedactionAbsorbs(v, [], OAUTH_EXACT_SENSITIVE_KEYS);
    WiderRedactionAbsorbs(v, [], []);
  }

  // ---- Every position of the tree

  predicate HidesAt(hop: Hop, exact: seq<string>) {
    hop.Field? && Hidden(hop.key, exact)
  }

  /** What stands at any path after redaction: a path through no hidden key leads
      to the redaction of what it led to before (or nowhere, as before); one that
      ends at its only hidden key leads to the marker exactly when it led
      somewhere before; and nothing stays reachable beneath a hidden key. */
  lemma {:induction false} RedactionByPath(v: Json, path: seq<Hop>, exact: seq<string>)
    ensures (forall i :: 0 <= i < |path| ==> !HidesAt(path[i], exact)) ==>
              At(Redacted(v, exact), path) ==
              match At(v, path) case Some(x) => Some(Redacted(x, exact)) case None => None
    ensures forall k :: 0 <= k < |path| && HidesAt(path[k], exact)
                        && (forall i :: 0 <= i < k ==> !HidesAt(path[i], exact)) ==>
              At(Redacted(v, exact), path) ==
              if k == |path| - 1 && At(v, path).Some? then Some(Str("<redacted>")) else None
    decreases |path|
  {
    if path != [] {
      var rest := path[1..];
      assert forall i :: 0 <= i < |rest| ==> rest[i] == path[i + 1];
      match (v, path[0]) {
        case (Obj(fields), Field(key)) =>
          if key in fields && !Hidden(key, exact) {
            RedactionByPath(fields[key], rest, exact);
            forall k | 0 <= k < |path| && HidesAt(path[k], exact) && (forall i :: 0 <= i < k ==> !HidesAt(path[i], exact))
              ensures k > 0 && HidesAt(rest[k - 1], exact) && (forall i :: 0 <= i < k - 1 ==> !HidesAt(rest[i], exact))
            {
              assert path[0] == Field(key);
            }
          }
        case (Arr(items), Item(index)) =>
          if index < |items| {
            RedactionByPath(items[index], rest, exact);
            forall k | 0 <= k < |path| && HidesAt(path[k], exact) && (forall i :: 0 <= i < k ==> !HidesAt(path[i], exact))
              ensures k > 0 && HidesAt(rest[k - 1], exact) && (forall i :: 0 <= i < k - 1 ==> !HidesAt(rest[i], exact))
            {
              assert path[0] == Item(index);
            }
          }
        case _ =>
      }
    }
  }

  /** What is no object and no array, and is reached through no hidden key, stays as
      it is. */
  lemma LeavesAreKept(v: Json, path: seq<Hop>, exact: seq<string>, leaf: Json)
    requires At(v, path) == Some(leaf) && !leaf.Obj? && !leaf.Arr?
    requires forall i :: 0 <= i < |path| ==> !HidesAt(path[i], exact)
    ensures At(Redacted(v, exact), path) == Some(leaf)
  {
    RedactionByPath(v, path, exact);
  }

  // ---- Whole bodies

  function Truncate(text: string, max: nat): (r: string)
    ensures |r| <= max + 15
    ensures |text| <= max ==> r == text
    ensures |text| > max ==> |r| > max && r[..max] == text[..max] && r[max..] == "... (truncated)"
  {
    if |text| <= max then text else text[..max] + "... (truncated)"
  }

  /** Parsing and printing JSON are the library's and are parameters here. A body
      that is no JSON is withheld altogether. */
  function Sanitize(parse: string -> Option<Json>, render: Json -> string, body: string, exact: seq<string>): Option<string> {
    match parse(body)
    case None => None
    case Some(v) => Some(Truncate(render(Redacted(v, exact)), MAX_BODY_CHARS))
  }

  /** Whatever the parser and the printer, bodies that agree outside hidden keys
      are surfaced as the same text. */
  lemma SanitizeLeaksNothingHidden(parse: string -> Option<Json>, render: Json -> string,
                                   a: string, b: string, exact: seq<string>)
    requires parse(a).Some? && parse(b).Some? && Agree(parse(a).value, parse(b).value, exact)
    ensures Sanitize(parse, render, a, exact) == Sanitize(parse, render, b, exact)
  {
    RedactionHidesExactlyTheHidden(parse(a).value, parse(b).value, exact);
  }

  /** A body is surfaced if and only if it is JSON; and then as the print of its
      redaction, up to 500 characters of it. */
  lemma JsonBodiesAreSurfaced(parse: string -> Option<Json>, render: Json -> string, body: string, exact: seq<string>)
    ensures Sanitize(parse, render, body, exact).Some? <==> parse(body).Some?
    ensures parse(body).Some? ==>
              var text, r := render(Redacted(parse(body).value, exact)), Sanitize(parse, render, body, exact).value;
              if |text| <= 500 then r == text else |r| == 515 && r[..500] == text[..500]
  {
  }
}
