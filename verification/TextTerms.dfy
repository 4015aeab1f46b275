/**
 What the text functions of the configuration come to, said of the characters
 themselves: white space, paths, numbers, UTF-8 lengths and passwords.
 */
module TextTerms {
  import opened Common
  import opened JsonText
  import opened SectionSpec
  import opened SectionBuild

  // ----- white space and paths -----

  /** The code points of Unicode's White_Space property. */
  predicate White(c: char) {
    var n := c as int;
    || 9 <= n <= 13 || n == 32 || n == 133 || n == 160 || n == 5760 || 8192 <= n <= 8202
    || n == 8232 || n == 8233 || n == 8239 || n == 8287 || n == 12288
  }

  lemma {:induction false} WhiteIs(c: char)
    ensures Space(c) <==> White(c)
  {
  }

  ghost predicate AllWhite(s: string) { forall i :: 0 <= i < |s| ==> White(s[i]) }

  /** `t` is the text without the white space in front of it and behind it. */
  ghost predicate Trims(text: string, t: string) {
    exists a, b :: text == a + t + b && AllWhite(a) && AllWhite(b) && Bare(t)
  }

  ghost predicate Bare(t: string) { t != "" ==> !White(t[0]) && !White(t[|t| - 1]) }

  lemma {:induction false} StartTrims(s: string) returns (a: string)
    ensures s == a + TrimStart(s) && AllWhite(a) && (TrimStart(s) != "" ==> !White(TrimStart(s)[0]))
  {
    hide Space, White;
    if s != "" { WhiteIs(s[0]); }
    if s != "" && Space(s[0]) {
      var rest := StartTrims(s[1..]);
      a := [s[0]] + rest;
      assert s == [s[0]] + s[1..];
    } else {
      a := "";
    }
  }

  lemma {:induction false} EndTrims(s: string) returns (b: string)
    ensures s == TrimEnd(s) + b && AllWhite(b) && (TrimEnd(s) != "" ==> !White(TrimEnd(s)[|TrimEnd(s)| - 1]))
  {
    hide Space, White;
    if s != "" { WhiteIs(s[|s| - 1]); }
    if s != "" && Space(s[|s| - 1]) {
      var rest := EndTrims(s[..|s| - 1]);
      b := rest + [s[|s| - 1]];
      assert s == s[..|s| - 1] + [s[|s| - 1]];
    } else {
      b := "";
    }
  }

  lemma {:induction false} TrimIs(text: string)
    ensures Trims(text, Trim(text))
  {
    hide White, Space;
    var a := StartTrims(text);
    var b := EndTrims(TrimStart(text));
    var t := Trim(text);
    assert text == a + t + b;
    assert t != "" ==> t[0] == TrimStart(text)[0];
  }

  /** There is only one such text. */
  lemma {:induction false} TrimOnce(text: string, t: string)
    requires Trims(text, t)
    ensures Trim(text) == t
  {
    hide White;
    TrimIs(text);
    var a, b :| text == a + t + b && AllWhite(a) && AllWhite(b) && Bare(t);
    var c, d :| text == c + Trim(text) + d && AllWhite(c) && AllWhite(d) && Bare(Trim(text));
    SameCore(text, a, t, b, c, Trim(text), d);
  }

  lemma {:induction false} Mixed(a: string, t: string, b: string)
    requires AllWhite(a) && AllWhite(b) && Bare(t)
    ensures AllWhite(a + t + b) <==> t == ""
  {
    hide White;
    assert t != "" ==> (a + t + b)[|a|] == t[0];
  }

  lemma {:induction false} SameCore(text: string, a: string, t: string, b: string, c: string, u: string, d: string)
    requires text == a + t + b && text == c + u + d
    requires AllWhite(a) && AllWhite(b) && AllWhite(c) && AllWhite(d) && Bare(t) && Bare(u)
    ensures t == u
  {
    hide White;
    Mixed(a, t, b);
    Mixed(c, u, d);
    if t != "" {
      assert text[|a|] == t[0] && text[|a| + |t| - 1] == t[|t| - 1];
      assert text[|c|] == u[0] && text[|c| + |u| - 1] == u[|u| - 1];
      assert forall i :: 0 <= i < |a| ==> text[i] == a[i];
      assert forall i :: 0 <= i < |c| ==> text[i] == c[i];
      Behind(text, a + t, b);
      Behind(text, c + u, d);
      assert |a| == |c| && |a| + |t| == |c| + |u|;
      assert t == text[|a|..|a| + |t|] == u;
    }
  }

  lemma {:induction false} Behind(text: string, front: string, b: string)
    requires text == front + b && AllWhite(b)
    ensures forall i :: |front| <= i < |text| ==> White(text[i])
  {
    forall i | |front| <= i < |text| ensures White(text[i]) { assert text[i] == b[i - |front|]; }
  }

  /**
   The path a section keeps: the text begins with a slash or a backslash; what
   is white at its end is left out, and backslashes become slashes.
   */
  ghost predicate PathFrom(text: string, p: string) {
    && 0 < |p| <= |text| && (text[0] as int == 0x2F || text[0] as int == 0x5C)
    && (forall i :: 0 <= i < |p| ==> p[i] == if text[i] as int == 0x5C then 0x2F as char else text[i])
    && !White(text[|p| - 1]) && forall i :: |p| <= i < |text| ==> White(text[i])
  }

  lemma {:induction false} PathIs(text: string, p: string)
    ensures Clean(text) == Some(p) <==> PathFrom(text, p)
  {
    if Absolute(text) {
      WhiteIs(text[0]);
      KeptPath(text);
      if PathFrom(text, p) { SamePath(text, p, Normalized(text)); }
    }
  }

  lemma {:induction false} KeptPath(text: string)
    requires Absolute(text)
    ensures PathFrom(text, Normalized(text))
  {
    WhiteIs(text[0]);
    assert !White(text[0]);
    hide White, Space;
    TrimKeeps(text);
    var b := EndTrims(text);
    var t := TrimEnd(text);
    assert TrimStart(text) == text;
    Behind(text, t, b);
  }

  lemma {:induction false} SamePath(text: string, p: string, q: string)
    requires PathFrom(text, p) && PathFrom(text, q)
    ensures p == q
  {
    hide White;
    assert |p| == |q|;
  }

  /** A text that begins with a slash or a backslash gives a path, and no other does. */
  lemma {:induction false} PathWhen(text: string)
    ensures (exists p :: PathFrom(text, p)) <==> text != "" && (text[0] as int == 0x2F || text[0] as int == 0x5C)
  {
    if text != "" && (text[0] as int == 0x2F || text[0] as int == 0x5C) { KeptPath(text); }
  }

  /** The paths of a list: those texts that give one, in order. */
  ghost predicate Cleaned(texts: seq<string>, paths: seq<string>) {
    exists ps: seq<nat> :: CleanedAt(texts, paths, ps)
  }

  ghost predicate CleanedAt(texts: seq<string>, paths: seq<string>, ps: seq<nat>) {
    && |ps| == |paths|
    && (forall j, k :: 0 <= j < k < |ps| ==> ps[j] < ps[k])
    && (forall k :: 0 <= k < |ps| ==> ps[k] < |texts| && PathFrom(texts[ps[k]], paths[k]))
    && forall i: nat :: i < |texts| && i !in ps ==> forall p :: !PathFrom(texts[i], p)
  }

  lemma {:induction false} CleanedMore(texts: seq<string>, paths: seq<string>, ps: seq<nat>, t: string)
    requires CleanedAt(texts, paths, ps)
    ensures Clean(t).None? ==> CleanedAt(texts + [t], paths, ps)
    ensures Clean(t).Some? ==> CleanedAt(texts + [t], paths + [Clean(t).value], ps + [|texts|])
  {
    hide PathFrom, Clean;
    forall p ensures Clean(t) == Some(p) <==> PathFrom(t, p) { PathIs(t, p); }
    var n := |texts|;
    assert forall i :: 0 <= i < n ==> (texts + [t])[i] == texts[i];
    if Clean(t).Some? {
      var qs := ps + [n];
      forall i: nat | i < n + 1 && i !in qs ensures forall p :: !PathFrom((texts + [t])[i], p) {
        assert i !in ps && i != n by { assert qs[|ps|] == n; assert forall k :: 0 <= k < |ps| ==> qs[k] == ps[k]; }
      }
    }
  }

  lemma {:induction false} CleanAllMore(texts: seq<string>, t: string)
    ensures CleanAll(texts + [t]) == CleanAll(texts) + (match Clean(t) case Some(p) => [p] case None => [])
  {
    if texts != [] {
      assert (texts + [t])[1..] == texts[1..] + [t];
      CleanAllMore(texts[1..], t);
    }
  }

  lemma {:induction false} CleanedPlaces(texts: seq<string>) returns (ps: seq<nat>)
    ensures CleanedAt(texts, CleanAll(texts), ps)
  {
    if texts == [] {
      ps := [];
    } else {
      var n := |texts| - 1;
      ps := CleanedPlaces(texts[..n]);
      CleanedMore(texts[..n], CleanAll(texts[..n]), ps, texts[n]);
      CleanAllMore(texts[..n], texts[n]);
      assert texts[..n] + [texts[n]] == texts;
      hide CleanedAt, Clean, CleanAll;
      if Clean(texts[n]).Some? { ps := ps + [n]; }
    }
  }

  lemma {:induction false} PathsAre(texts: seq<string>)
    ensures Cleaned(texts, CleanAll(texts))
  {
    var ps := CleanedPlaces(texts);
  }

  // ----- numbers -----

  /** A number in decimal. */
  function Decimal(n: nat): string {
    if n < 10 then ["0123456789"[n]] else Decimal(n / 10) + ["0123456789"[n % 10]]
  }

  lemma {:induction false} DigitIs(d: nat)
    requires d < 10
    ensures var c := "0123456789"[d]; IsDigit(c) && c as nat - '0' as nat == d
  {
  }

  /** Digits are read in base ten, and zeros in front do not count. */
  lemma {:induction false} DecimalRead(n: nat)
    ensures AllDigits(Decimal(n)) && DigitsValue(Decimal(n)) == n
    ensures n > 0 ==> Decimal(n)[0] != '0'
  {
    if n < 10 {
      DigitIs(n);
      assert Decimal(n)[..0] == "";
    } else {
      DecimalRead(n / 10);
      DigitIs(n % 10);
      var t := Decimal(n);
      assert t[..|t| - 1] == Decimal(n / 10);
    }
  }

  lemma {:induction false} ZerosInFront(t: string)
    requires AllDigits(t)
    ensures AllDigits("0" + t) && DigitsValue("0" + t) == DigitsValue(t)
  {
    var z := "0" + t;
    assert z[0] == '0' && IsDigit('0');
    assert forall i :: 1 <= i < |z| ==> z[i] == t[i - 1];
    if t == "" {
      assert z[..0] == "";
    } else {
      assert z[..|z| - 1] == "0" + t[..|t| - 1];
      ZerosInFront(t[..|t| - 1]);
    }
  }

  /** The digits of `t` say `n`: perhaps some zeros, and then `n` in decimal. */
  ghost predicate Says(t: string, n: nat) { exists k: nat :: t == Noughts(k) + Decimal(n) }

  function Noughts(k: nat): string { if k == 0 then "" else "0" + Noughts(k - 1) }

  lemma {:induction false} NoughtsIn(k: nat, t: string)
    requires AllDigits(t)
    ensures AllDigits(Noughts(k) + t) && DigitsValue(Noughts(k) + t) == DigitsValue(t)
  {
    if k > 0 {
      NoughtsIn(k - 1, t);
      ZerosInFront(Noughts(k - 1) + t);
      assert Noughts(k) + t == "0" + (Noughts(k - 1) + t);
    } else {
      assert Noughts(0) + t == t;
    }
  }

  lemma {:induction false} SaysIs(t: string, n: nat)
    ensures Says(t, n) <==> t != "" && AllDigits(t) && DigitsValue(t) == n
  {
    hide Decimal;
    if Says(t, n) {
      var k: nat :| t == Noughts(k) + Decimal(n);
      DecimalRead(n);
      NoughtsIn(k, Decimal(n));
      DecimalSome(n);
    }
    if t != "" && AllDigits(t) { SaysValue(t); }
  }

  lemma {:induction false} DecimalSome(n: nat)
    ensures Decimal(n) != ""
  {
  }

  lemma {:induction false} SaysValue(t: string)
    requires t != "" && AllDigits(t)
    ensures Says(t, DigitsValue(t))
  {
    var n, last := |t| - 1, t[|t| - 1];
    assert IsDigit(last);
    DigitIs(last as nat - '0' as nat);
    assert t == t[..n] + [last];
    if n == 0 {
      assert t == Noughts(0) + Decimal(DigitsValue(t));
    } else {
      SaysValue(t[..n]);
      SaysMore(t[..n], DigitsValue(t[..n]), last as nat - '0' as nat);
    }
  }

  lemma {:induction false} SaysMore(t: string, w: nat, d: nat)
    requires Says(t, w) && d < 10
    ensures Says(t + ["0123456789"[d]], 10 * w + d)
  {
    var k: nat :| t == Noughts(k) + Decimal(w);
    var more := t + ["0123456789"[d]];
    if w > 0 {
      DecimalMore(w, d);
      assert more == Noughts(k) + Decimal(10 * w + d);
    } else {
      assert Decimal(0) == "0";
      NoughtBehind(k);
      assert more == Noughts(k + 1) + Decimal(d);
    }
  }

  lemma {:induction false} DecimalMore(w: nat, d: nat)
    requires w > 0 && d < 10
    ensures Decimal(10 * w + d) == Decimal(w) + ["0123456789"[d]]
  {
    DivUnique(10 * w + d, 10, w, d);
  }

  lemma {:induction false} NoughtBehind(k: nat)
    ensures Noughts(k) + "0" == Noughts(k + 1)
  {
    if k > 0 {
      NoughtBehind(k - 1);
      assert Noughts(k) + "0" == "0" + (Noughts(k - 1) + "0");
    }
  }

  /** An unsigned 32-bit number, with white space around it or without. */
  ghost predicate UnsignedFrom(text: string, n: Option<nat>) {
    exists t :: Trims(text, t)
      && match n
         case Some(v) => Says(t, v) && v <= 4294967295
         case None => forall v: nat :: v <= 4294967295 ==> !Says(t, v)
  }

  lemma {:induction false} UnsignedIs(text: string)
    ensures UnsignedFrom(text, Unsigned(text))
  {
    hide Trims, Says;
    TrimIs(text);
    var t := Trim(text);
    forall v: nat ensures Says(t, v) <==> t != "" && AllDigits(t) && DigitsValue(t) == v { SaysIs(t, v); }
  }

  /** The digits of an atom, behind a minus or not, as a signed 32-bit number. */
  ghost predicate SignedFrom(t: string, n: int) {
    -2147483647 <= n <= 2147483647
    && ((n >= 0 && Says(t, n)) || (n <= 0 && t != "" && t[0] as int == 0x2D && Says(t[1..], -n)))
  }

  lemma {:induction false} SignedIs(t: string, n: int)
    ensures AtomNumber(t) == Some(NumberIs(n)) <==> SignedFrom(t, n)
  {
    hide Says;
    var d := DigitsStart(t, 0);
    if d <= |t| {
      var e := DigitsEnd(t, d);
      var u := t[d..];
      assert t[d..|t|] == u;
      if n >= 0 { SaysIs(t, n); }
      if n <= 0 { SaysIs(u, -n); }
      if n >= 0 { SaysIs(u, n); }
      assert !Minus(t, 0) ==> u == t;
      if Minus(t, 0) { assert !IsDigit(t[0]); }
      if AllDigits(u) { DigitsEndIs(t, d, |t|); }
    }
  }

  // ----- UTF-8 -----

  /** A character's bytes (section 3 of RFC 3629). */
  function Utf8(c: char): seq<nat> {
    var n := c as nat;
    if n <= 0x7F then [n]
    else if n <= 0x7FF then [0xC0 + n / 0x40, 0x80 + n % 0x40]
    else if n <= 0xFFFF then [0xE0 + n / 0x1000, 0x80 + n / 0x40 % 0x40, 0x80 + n % 0x40]
    else [0xF0 + n / 0x4_0000, 0x80 + n / 0x1000 % 0x40, 0x80 + n / 0x40 % 0x40, 0x80 + n % 0x40]
  }

  function Utf8All(s: string): seq<nat> { if s == "" then [] else Utf8(s[0]) + Utf8All(s[1..]) }

  lemma {:induction false} Utf8Is(s: string)
    ensures Utf8Length(s) == |Utf8All(s)|
    ensures |s| <= |Utf8All(s)| && ((forall i :: 0 <= i < |s| ==> s[i] as int <= 0x7F) ==> |Utf8All(s)| == |s|)
  {
    if s != "" { Utf8Is(s[1..]); }
  }

  // ----- passwords -----

  /** A hexadecimal digit's value, in either case. */
  ghost predicate Hex(c: char, v: int) {
    0 <= v < 16 && (c == "0123456789abcdef"[v] || c == "0123456789ABCDEF"[v])
  }

  lemma {:induction false} HexIs(c: char, v: nat)
    ensures HexDigit(c) == Some(v) <==> Hex(c, v)
  {
    if HexDigit(c) == Some(v) {
      assert v < 16;
      assert "0123456789abcdef"[v] == if v < 10 then ('0' as nat + v) as char else ('a' as nat + v - 10) as char;
      assert "0123456789ABCDEF"[v] == if v < 10 then ('0' as nat + v) as char else ('A' as nat + v - 10) as char;
    }
  }

  /** Byte `i` is written with the two digits in its place. */
  ghost predicate HexPair(t: string, d: seq<nat>, i: nat)
    requires i < |d| && |t| == 2 * |d|
  {
    d[i] < 256 && Hex(t[2 * i], d[i] / 16) && Hex(t[2 * i + 1], d[i] % 16)
  }

  /** Bytes written with two digits each. */
  ghost predicate HexOf(t: string, d: seq<nat>) { |t| == 2 * |d| && forall i: nat :: i < |d| ==> HexPair(t, d, i) }

  lemma {:induction false} HexMore(t: string, d: seq<nat>)
    requires |t| >= 2 && d != []
    ensures HexOf(t, d) <==> d[0] < 256 && Hex(t[0], d[0] / 16) && Hex(t[1], d[0] % 16) && HexOf(t[2..], d[1..])
  {
    hide Hex;
    var u, e := t[2..], d[1..];
    if |t| == 2 * |d| {
      assert forall i: nat :: i < |e| ==>
        e[i] == d[i + 1] && u[2 * i] == t[2 * (i + 1)] && u[2 * i + 1] == t[2 * (i + 1) + 1];
      forall i: nat | i < |e| ensures HexPair(u, e, i) <==> HexPair(t, d, i + 1) { }
      if HexOf(t, d) {
        assert HexPair(t, d, 0);
        forall i: nat | i < |e| ensures HexPair(u, e, i) { assert HexPair(t, d, i + 1); }
      }
      if HexOf(u, e) && d[0] < 256 && Hex(t[0], d[0] / 16) && Hex(t[1], d[0] % 16) {
        forall i: nat | i < |d| ensures HexPair(t, d, i) { if i > 0 { assert HexPair(u, e, i - 1); } }
      }
    }
  }

  lemma {:induction false} HexBytesAre(t: string, d: seq<nat>)
    ensures HexBytes(t) == Some(d) <==> HexOf(t, d)
  {
    hide Hex, HexDigit;
    if |t| >= 2 && d != [] {
      HexBytesAre(t[2..], d[1..]);
      HexMore(t, d);
      assert d == [d[0]] + d[1..];
      forall v: nat ensures HexDigit(t[0]) == Some(v) <==> Hex(t[0], v) { HexIs(t[0], v); }
      forall v: nat ensures HexDigit(t[1]) == Some(v) <==> Hex(t[1], v) { HexIs(t[1], v); }
      HexSmall(t[0]);
      HexSmall(t[1]);
    }
  }

  lemma {:induction false} HexSmall(c: char)
    ensures HexDigit(c).Some? ==> HexDigit(c).value < 16
    ensures forall v :: Hex(c, v) ==> 0 <= v < 16 && c as int <= 0x7F
  {
    forall v | Hex(c, v) ensures 0 <= v < 16 && c as int <= 0x7F { HexIs(c, v); }
  }

  lemma {:induction false} HexIsAscii(t: string, d: seq<nat>)
    requires HexOf(t, d)
    ensures Utf8Length(t) == |t|
  {
    hide Hex;
    forall i | 0 <= i < |t| ensures t[i] as int <= 0x7F {
      assert HexPair(t, d, i / 2);
      HexSmall(t[i]);
    }
    Utf8Is(t);
  }

  lemma {:induction false} DigestIs(t: string, d: seq<nat>)
    ensures Digest(t) == Some(d) <==> |d| == 16 && HexOf(t, d)
  {
    HexBytesAre(t, d);
    if HexOf(t, d) { HexIsAscii(t, d); }
    hide HexOf;
  }

  /**
   A password: at most 64 bytes, marked as plain text, or as an MD5 sum of 32
   hexadecimal digits that may stand behind a salt.
   */
  ghost predicate PasswordFrom(value: string, p: Password) {
    && |Utf8All(value)| <= 64
    && match p
       case PlainText(t) => value == "txt#" + t
       case Md5(d) => |d| == 16 && exists h :: value == "md5#" + h && HexOf(h, d)
       case SaltedMd5(salt, d) =>
         |d| == 16 && '#' !in salt && exists h :: value == "md5#" + salt + "#" + h && HexOf(h, d)
  }

  lemma {:induction false} SplitIs(t: string, a: string, b: string)
    ensures SplitAt(t, '#') == Some((a, b)) <==> '#' !in a && t == a + "#" + b
  {
    if t != "" {
      if t[0] == '#' {
        if a != "" { assert (a + "#" + b)[0] == a[0]; }
        assert t == "#" + t[1..];
        assert "" + "#" + b == "#" + b;
      } else if a == "" {
        assert (a + "#" + b)[0] == '#';
      } else {
        SplitIs(t[1..], a[1..], b);
        assert a == [a[0]] + a[1..] && t == [t[0]] + t[1..];
        assert a + "#" + b == [a[0]] + (a[1..] + "#" + b);
        assert '#' !in a <==> a[0] != '#' && '#' !in a[1..];
      }
    }
  }

  lemma {:induction false} Front(value: string, mark: string, rest: string)
    ensures value == mark + rest <==> mark <= value && value[|mark|..] == rest
  {
  }

  lemma {:induction false} PlainIs(value: string, p: Password)
    requires "txt#" <= value && |Utf8All(value)| <= 64
    ensures PasswordFrom(value, p) <==> p == PlainText(value[4..])
  {
    assert value[0] == 't';
    match p
    case PlainText(t) => Front(value, "txt#", t);
    case Md5(d) =>
      forall h ensures value != "md5#" + h { assert ("md5#" + h)[0] == 'm'; }
    case SaltedMd5(salt, d) =>
      forall h ensures value != "md5#" + salt + "#" + h { assert ("md5#" + salt + "#" + h)[0] == 'm'; }
  }

  lemma {:induction false} SumIs(rest: string, p: Password)
    requires Utf8Length(rest) == 32
    ensures |Utf8All("md5#" + rest)| <= 64
    ensures PasswordFrom("md5#" + rest, p) <==> p.Md5? && Digest(rest) == Some(p.digest)
  {
    hide HexOf, Digest;
    var value := "md5#" + rest;
    MarkLength(rest);
    match p
    case PlainText(t) => assert value[0] == 'm' && ("txt#" + t)[0] == 't';
    case Md5(d) =>
      DigestIs(rest, d);
      forall h ensures value == "md5#" + h <==> h == rest { Front(value, "md5#", h); }
    case SaltedMd5(salt, d) =>
      forall h | HexOf(h, d) && |d| == 16 ensures value != "md5#" + salt + "#" + h {
        Utf8Is(rest);
        LongEnough(h, d);
        assert |"md5#" + salt + "#" + h| > |value|;
      }
  }

  lemma {:induction false} LongEnough(h: string, d: seq<nat>)
    requires HexOf(h, d) && |d| == 16
    ensures |h| == 32
  {
  }

  lemma {:induction false} AsciiFirst(c: char, s: string)
    requires c as int <= 0x7F
    ensures |Utf8All([c] + s)| == 1 + |Utf8All(s)|
  {
    assert ([c] + s)[1..] == s;
  }

  lemma {:induction false} MarkLength(rest: string)
    ensures |Utf8All("md5#" + rest)| == 4 + Utf8Length(rest)
  {
    Utf8Is(rest);
    AsciiFirst('#', rest);
    AsciiFirst('5', ['#'] + rest);
    AsciiFirst('d', ['5'] + (['#'] + rest));
    AsciiFirst('m', ['d'] + (['5'] + (['#'] + rest)));
    assert "md5#" + rest == ['m'] + (['d'] + (['5'] + (['#'] + rest)));
  }

  lemma {:induction false} SaltedIs(rest: string, p: Password)
    requires Utf8Length(rest) != 32 && |Utf8All("md5#" + rest)| <= 64
    ensures PasswordFrom("md5#" + rest, p) <==>
      p.SaltedMd5? && exists h :: SplitAt(rest, '#') == Some((p.salt, h)) && Digest(h) == Some(p.digest)
  {
    hide HexOf, Digest, SplitAt;
    var value := "md5#" + rest;
    match p
    case PlainText(t) => assert value[0] == 'm' && ("txt#" + t)[0] == 't';
    case Md5(d) =>
      forall h ensures value == "md5#" + h <==> h == rest { Front(value, "md5#", h); }
      if HexOf(rest, d) && |d| == 16 {
        LongEnough(rest, d);
        HexIsAscii(rest, d);
      }
    case SaltedMd5(salt, d) =>
      forall h
        ensures value == "md5#" + salt + "#" + h <==> rest == salt + "#" + h
        ensures SplitAt(rest, '#') == Some((salt, h)) <==> '#' !in salt && rest == salt + "#" + h
        ensures Digest(h) == Some(d) <==> |d| == 16 && HexOf(h, d)
      {
        assert "md5#" + salt + "#" + h == "md5#" + (salt + "#" + h);
        Front(value, "md5#", salt + "#" + h);
        SplitIs(rest, salt, h);
        DigestIs(h, d);
      }
  }

  lemma {:induction false} PasswordIs(value: string, p: Password)
    ensures PasswordOf(value) == Some(p) <==> PasswordFrom(value, p)
  {
    Utf8Is(value);
    hide Digest, SplitAt, Utf8Length, Utf8All;
    if |Utf8All(value)| <= 64 {
      if "txt#" <= value {
        PlainIs(value, p);
      } else if "md5#" <= value {
        var rest := value[4..];
        assert value == "md5#" + rest;
        hide PasswordFrom;
        if Utf8Length(rest) == 32 { SumIs(rest, p); } else { SaltedIs(rest, p); }
      } else {
        NoMark(value, p);
      }
    }
  }

  lemma {:induction false} NoMark(value: string, p: Password)
    requires !("txt#" <= value) && !("md5#" <= value)
    ensures !PasswordFrom(value, p)
  {
    match p
    case PlainText(t) => Front(value, "txt#", t);
    case Md5(d) => forall h ensures value != "md5#" + h { Front(value, "md5#", h); }
    case SaltedMd5(salt, d) =>
      forall h ensures value != "md5#" + salt + "#" + h {
        assert "md5#" + salt + "#" + h == "md5#" + (salt + "#" + h);
        Front(value, "md5#", salt + "#" + h);
      }
  }

  // ----- the default image -----

  /** A function key and an angle bracket, with a path behind them. */
  ghost predicate Keyed(t: string) {
    |t| > 3 && (t[0] == 'F' || t[0] == 'f') && t[1] in "23456789" && t[2] == '>'
  }

  lemma {:induction false} KeyedIs(t: string)
    ensures HotKey(t) <==> Keyed(t)
  {
    var digits := "23456789";
    if HotKey(t) { assert digits[t[1] as int - '2' as int] == t[1]; }
  }

  /** The default image: a path, trimmed, and without the function key in front of it. */
  ghost predicate DefaultFrom(text: string, p: string) {
    exists t, u :: Trims(text, t) && Trims(if Keyed(t) then Behind3(t) else t, u) && PathFrom(u, p)
  }

  lemma {:induction false} DefaultIs(text: string, p: string)
    ensures CleanDefault(text) == Some(p) <==> DefaultFrom(text, p)
  {
    hide Trims, PathFrom, Keyed, HotKey, Trim, Clean;
    var t := Trim(text);
    TrimIs(text);
    KeyedIs(t);
    var rest := if Keyed(t) then Behind3(t) else t;
    TrimIs(rest);
    PathIs(Trim(rest), p);
    KeyedSize(t);
    if DefaultFrom(text, p) {
      var t', u :| Trims(text, t') && Trims(if Keyed(t') then Behind3(t') else t', u) && PathFrom(u, p);
      TrimOnce(text, t');
      TrimOnce(rest, u);
    }
  }

  function Behind3(t: string): string { if |t| >= 3 then t[3..] else "" }

  lemma {:induction false} KeyedSize(t: string)
    ensures Keyed(t) ==> |t| > 3 && Behind3(t) == t[3..]
  {
  }
}
