/** Escaping of file paths for display: backslashes and control characters
    become escapes, so no path can steer the terminal. */
module DisplayPath {
  import opened Prelude

  /** Unicode category Cc, as `char::is_control` uses it. */
  predicate IsControl(c: char) {
    c <= '\U{1F}' || '\U{7F}' <= c <= '\U{9F}'
  }

  predicate IsEscaped(c: char) {
    c == '\\' || IsControl(c)
  }

  // Lower-case hexadecimal without leading zeros.
  function Hex(n: nat): string {
    if n < 16 then [HexDigit(n)] else Hex(n / 16) + [HexDigit(n % 16)]
  }

  function EscapeChar(c: char): string {
    if !IsEscaped(c) then [c]
    else if c == '\\' then "\\\\"
    else if c == '\t' then "\\t"
    else if c == '\r' then "\\r"
    else if c == '\n' then "\\n"
    else "\\u{" + Hex(c as int) + "}"
  }

  function Escape(s: string): string {
    if s == [] then [] else EscapeChar(s[0]) + Escape(s[1..])
  }

  lemma EscapeFirst(done: string, s: string)
    requires s != []
    ensures done + EscapeChar(s[0]) + Escape(s[1..]) == done + Escape(s)
  {
  }

  method EscapePath(path: string) returns (escaped: string)
    ensures escaped == Escape(path)
  {
    escaped := "";
    for i := 0 to |path|
      invariant escaped + Escape(path[i..]) == Escape(path)
    {
      EscapeFirst(escaped, path[i..]);
      assert path[i..][1..] == path[i + 1..];
      if path[i] == '\\' || IsControl(path[i]) {
        escaped := escaped + EscapeChar(path[i]);
      } else {
        escaped := escaped + [path[i]];
      }
    }
  }

  // ---- Reading an escaped path back

  function HexValue(c: char): Option<nat> {
    if '0' <= c <= '9' then Some(c as int - '0' as int)
    else if 'a' <= c <= 'f' then Some(c as int - 'a' as int + 10)
    else None
  }

  // The number the digits write, after `acc`.
  function ParseHex(digits: string, acc: nat): Option<nat> {
    if digits == [] then Some(acc)
    else match HexValue(digits[0])
      case None => None
      case Some(v) => ParseHex(digits[1..], 16 * acc + v)
  }

  // Length of s up to its first closing brace.
  function UpToBrace(s: string): (n: nat)
    ensures n <= |s|
    ensures n < |s| ==> s[n] == '}'
  {
    if s == [] || s[0] == '}' then 0 else 1 + UpToBrace(s[1..])
  }

  predicate IsScalar(n: nat) {
    n < 0xD800 || 0xE000 <= n < 0x11_0000
  }

  // The first character an escaped text stands for, and the length of its form.
  function DecodeFirst(s: string): Option<(char, nat)>
    requires s != []
  {
    if s[0] != '\\' then Some((s[0], 1))
    else if |s| < 2 then None
    else if s[1] == '\\' then Some(('\\', 2))
    else if s[1] == 't' then Some(('\t', 2))
    else if s[1] == 'r' then Some(('\r', 2))
    else if s[1] == 'n' then Some(('\n', 2))
    else if |s| < 3 || s[1] != 'u' || s[2] != '{' then None
    else
      var n := UpToBrace(s[3..]);
      if n == |s| - 3 then None
      else match ParseHex(s[3..3 + n], 0)
        case Some(v) => if n > 0 && IsScalar(v) then Some((v as char, n + 4)) else None
        case None => None
  }

  function Decode(s: string): Option<string> {
    if s == [] then Some([])
    else match DecodeFirst(s)
      case None => None
      case Some((c, length)) =>
        if length == 0 || length > |s| then None
        else match Decode(s[length..])
          case None => None
          case Some(rest) => Some([c] + rest)
  }

  lemma {:induction false} HexShape(n: nat)
    ensures Hex(n) != []
    ensures forall i :: 0 <= i < |Hex(n)| ==> HexValue(Hex(n)[i]).Some?
  {
    if n >= 16 {
      HexShape(n / 16);
    }
  }

  lemma {:induction false} ParseHexAppend(digits: string, d: char, acc: nat)
    requires HexValue(d).Some? && ParseHex(digits, acc).Some?
    ensures ParseHex(digits + [d], acc) == Some(16 * ParseHex(digits, acc).value + HexValue(d).value)
  {
    if digits == [] {
      assert ([] + [d])[1..] == [];
    } else {
      assert (digits + [d])[1..] == digits[1..] + [d];
      ParseHexAppend(digits[1..], d, 16 * acc + HexValue(digits[0]).value);
    }
  }

  lemma {:induction false} ParseHexInvertsHex(n: nat)
    ensures ParseHex(Hex(n), 0) == Some(n)
  {
    assert HexValue(HexDigit(n % 16)) == Some(n % 16);
    if n < 16 {
      assert [HexDigit(n)][1..] == [];
    } else {
      ParseHexInvertsHex(n / 16);
      ParseHexAppend(Hex(n / 16), HexDigit(n % 16), 0);
    }
  }

  lemma {:induction false} BraceEndsDigits(digits: string, rest: string)
    requires forall i :: 0 <= i < |digits| ==> digits[i] != '}'
    ensures UpToBrace(digits + "}" + rest) == |digits|
  {
    if digits != [] {
      assert (digits + "}" + rest)[1..] == digits[1..] + "}" + rest;
      BraceEndsDigits(digits[1..], rest);
    }
  }

  lemma DecodeFirstInvertsEscape(c: char, rest: string)
    ensures EscapeChar(c) != []
    ensures DecodeFirst(EscapeChar(c) + rest) == Some((c, |EscapeChar(c)|))
    ensures (EscapeChar(c) + rest)[|EscapeChar(c)|..] == rest
  {
    var e := EscapeChar(c);
    if IsControl(c) && c != '\t' && c != '\r' && c != '\n' {
      var digits := Hex(c as int);
      HexShape(c as int);
      var s := e + rest;
      assert s[0] == '\\' && s[1] == 'u' && s[2] == '{';
      assert s[3..] == digits + "}" + rest;
      BraceEndsDigits(digits, rest);
      assert s[3..3 + |digits|] == digits;
      ParseHexInvertsHex(c as int);
    }
  }

  lemma DecodeStep(head: string, c: char, rest: string)
    requires head != [] && DecodeFirst(head + rest) == Some((c, |head|))
    requires (head + rest)[|head|..] == rest && Decode(rest).Some?
    ensures Decode(head + rest) == Some([c] + Decode(rest).value)
  {
  }

  /** Decoding an escaped path returns the path, for every character sequence. */
  lemma {:induction false} DecodeInvertsEscape(s: string)
    ensures Decode(Escape(s)) == Some(s)
  {
    if s != [] {
      var rest := Escape(s[1..]);
      DecodeInvertsEscape(s[1..]);
      DecodeFirstInvertsEscape(s[0], rest);
      DecodeStep(EscapeChar(s[0]), s[0], rest);
      assert s == [s[0]] + s[1..];
    }
  }

  lemma EscapeIsInjective(a: string, b: string)
    requires Escape(a) == Escape(b)
    ensures a == b
  {
    DecodeInvertsEscape(a);
    DecodeInvertsEscape(b);
  }

  lemma EscapeCharIsPrintable(c: char)
    ensures forall i :: 0 <= i < |EscapeChar(c)| ==> !IsControl(EscapeChar(c)[i])
  {
    HexShape(c as int);
    var digits := Hex(c as int);
    forall i | 0 <= i < |digits| ensures !IsControl(digits[i]) {
      assert HexValue(digits[i]).Some?;
    }
  }

  /** No control character survives, whatever the path. */
  lemma {:induction false} EscapedPathsArePrintable(s: string)
    ensures forall i :: 0 <= i < |Escape(s)| ==> !IsControl(Escape(s)[i])
  {
    if s != [] {
      EscapedPathsArePrintable(s[1..]);
      EscapeCharIsPrintable(s[0]);
    }
  }

  lemma EscapeCharLength(c: char)
    ensures |EscapeChar(c)| >= 1
    ensures |EscapeChar(c)| == 1 <==> !IsEscaped(c)
  {
    HexShape(c as int);
  }

  lemma {:induction false} EscapeLength(s: string)
    ensures |Escape(s)| >= |s|
    ensures |Escape(s)| == |s| ==> forall i :: 0 <= i < |s| ==> !IsEscaped(s[i])
  {
    if s != [] {
      EscapeLength(s[1..]);
      EscapeCharLength(s[0]);
      if |Escape(s)| == |s| {
        forall i | 0 <= i < |s| ensures !IsEscaped(s[i]) {
          if i > 0 { assert s[i] == s[1..][i - 1]; }
        }
      }
    }
  }

  /** A path is shown as it is exactly when it holds no backslash and no control
      character. */
  lemma {:induction false} EscapeChangesNothingExactlyWhen(s: string)
    ensures Escape(s) == s <==> forall i :: 0 <= i < |s| ==> !IsEscaped(s[i])
  {
    EscapeLength(s);
    if s != [] && forall i :: 0 <= i < |s| ==> !IsEscaped(s[i]) {
      assert forall i :: 0 <= i < |s[1..]| ==> s[1..][i] == s[i + 1];
      EscapeChangesNothingExactlyWhen(s[1..]);
      assert s == [s[0]] + s[1..];
    }
  }

  lemma {:induction false} HexHasNoLeadingZero(n: nat)
    requires n > 0
    ensures Hex(n) != [] && Hex(n)[0] != '0'
  {
    if n >= 16 {
      HexHasNoLeadingZero(n / 16);
    }
  }

  /** Each character has one escape: the short ones for a backslash, a tab, a carriage
      return and a line feed, and for other control characters the code point in
      lower-case hexadecimal, without leading zeros, in braces. */
  lemma EscapesAreThese(c: char)
    ensures Escape("\\") == "\\\\" && Escape("\t") == "\\t" && Escape("\r") == "\\r" && Escape("\n") == "\\n"
    ensures (c as int < 0x20 || 0x7F <= c as int < 0xA0) && c !in "\t\r\n" ==>
              var digits := Hex(c as int);
              && Escape([c]) == "\\u{" + digits + "}"
              && ParseHex(digits, 0) == Some(c as int) && (c as int > 0 ==> digits[0] != '0')
    ensures 0x20 <= c as int && !(0x7F <= c as int < 0xA0) && c != '\\' ==> Escape([c]) == [c]
  {
    EscapeOfOne('\\');
    EscapeOfOne('\t');
    EscapeOfOne('\r');
    EscapeOfOne('\n');
    EscapeOfOne(c);
    ParseHexInvertsHex(c as int);
    if c as int > 0 {
      HexHasNoLeadingZero(c as int);
    }
  }

  lemma EscapeOfOne(c: char)
    ensures Escape([c]) == EscapeChar(c)
  {
    assert [c][1..] == [];
    assert EscapeChar(c) + [] == EscapeChar(c);
  }

  /** A path is escaped character by character. */
  lemma {:induction false} EscapeAppend(a: string, b: string)
    ensures Escape(a + b) == Escape(a) + Escape(b)
  {
    if a == [] {
      assert a + b == b;
    } else {
      assert (a + b)[1..] == a[1..] + b;
      EscapeAppend(a[1..], b);
    }
  }
}
