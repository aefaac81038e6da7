/** String operations the system relies on, with the exact semantics of the
    Python `str` methods and the JavaScript `String` methods it calls:
    decimal rendering and parsing, `strip()` / `trim()` with each language's
    whitespace set, `split`, `replace`, `startswith`, and case mapping. */
module Text {

  import opened Outcomes

  // ---------------------------------------------------------------- digits

  predicate IsDigit(c: char) { '0' <= c <= '9' }

  predicate AllDigits(s: string) { forall i :: 0 <= i < |s| ==> IsDigit(s[i]) }

  function DigitChar(n: nat): (c: char)
    requires n < 10
    ensures IsDigit(c)
  {
    ('0' as int + n) as char
  }

  function DigitValue(c: char): (n: nat)
    requires IsDigit(c)
    ensures n < 10
  {
    c as int - '0' as int
  }

  /** Python `str(n)` / JavaScript `String(n)` for a non-negative integer. */
  function NatToString(n: nat): (s: string)
    ensures 1 <= |s| && AllDigits(s)
    ensures s[0] == '0' ==> n == 0
    decreases n
  {
    if n < 10 then [DigitChar(n)] else NatToString(n / 10) + [DigitChar(n % 10)]
  }

  /** Python `str(i)` for any integer. */
  function IntToString(i: int): (s: string)
    ensures 1 <= |s|
    ensures (i < 0) == (s[0] == '-')
  {
    if i < 0 then "-" + NatToString(-i) else NatToString(i)
  }

  /** The value of a string of decimal digits (`int(s)` when `s` is all digits). */
  function DigitsValue(s: string): nat
    requires AllDigits(s)
  {
    if s == [] then 0 else DigitsValue(s[..|s| - 1]) * 10 + DigitValue(s[|s| - 1])
  }

  lemma DigitRoundTrip(n: nat)
    requires n < 10
    ensures DigitValue(DigitChar(n)) == n
  {
  }

  /** Reading back a rendered number gives the number. */
  lemma {:induction false} NatToStringRoundTrip(n: nat)
    ensures DigitsValue(NatToString(n)) == n
    decreases n
  {
    var s := NatToString(n);
    if n < 10 {
      DigitRoundTrip(n);
    } else {
      NatToStringRoundTrip(n / 10);
      assert s[..|s| - 1] == NatToString(n / 10);
      DigitRoundTrip(n % 10);
    }
  }

  /** Distinct numbers render to distinct strings. */
  lemma NatToStringInjective(a: nat, b: nat)
    ensures NatToString(a) == NatToString(b) ==> a == b
  {
    NatToStringRoundTrip(a);
    NatToStringRoundTrip(b);
  }

  /** Python `s.zfill(width)` / `'%0*d'` padding for a digit string. */
  function PadLeft(s: string, width: nat, fill: char): (r: string)
    ensures |r| == if |s| < width then width else |s|
    ensures r[|r| - |s|..] == s
    ensures forall i :: 0 <= i < |r| - |s| ==> r[i] == fill
  {
    if |s| < width then seq(width - |s|, _ => fill) + s else s
  }

  // ------------------------------------------------------------ whitespace

  /** Which language's notion of whitespace a strip applies. */
  datatype Flavour = Python | JavaScript

  /** Python `str.isspace()` for one character. */
  predicate IsPythonSpace(c: char) {
    var k := c as int;
    (9 <= k <= 13) || (0x1C <= k <= 0x20) || k == 0x85 || k == 0xA0 || k == 0x1680
    || (0x2000 <= k <= 0x200A) || k == 0x2028 || k == 0x2029 || k == 0x202F
    || k == 0x205F || k == 0x3000
  }

  /** ECMAScript WhiteSpace or LineTerminator, the set `String.prototype.trim` removes. */
  predicate IsJsSpace(c: char) {
    var k := c as int;
    (9 <= k <= 13) || k == 0x20 || k == 0xA0 || k == 0x1680
    || (0x2000 <= k <= 0x200A) || k == 0x2028 || k == 0x2029 || k == 0x202F
    || k == 0x205F || k == 0x3000 || k == 0xFEFF
  }

  predicate IsSpace(c: char, f: Flavour) {
    match f
    case Python => IsPythonSpace(c)
    case JavaScript => IsJsSpace(c)
  }

  function TrimStart(s: string, f: Flavour): (r: string)
    ensures |r| <= |s| && r == s[|s| - |r|..]
    ensures forall i :: 0 <= i < |s| - |r| ==> IsSpace(s[i], f)
    ensures r == [] || !IsSpace(r[0], f)
  {
    if s != [] && IsSpace(s[0], f) then TrimStart(s[1..], f) else s
  }

  function TrimEnd(s: string, f: Flavour): (r: string)
    ensures |r| <= |s| && r == s[..|r|]
    ensures forall i :: |r| <= i < |s| ==> IsSpace(s[i], f)
    ensures r == [] || !IsSpace(r[|r| - 1], f)
  {
    if s != [] && IsSpace(s[|s| - 1], f) then TrimEnd(s[..|s| - 1], f) else s
  }

  /** `s.strip()` (Python) or `s.trim()` (JavaScript). */
  function Trim(s: string, f: Flavour): (r: string)
    ensures r == [] || (!IsSpace(r[0], f) && !IsSpace(r[|r| - 1], f))
    ensures exists i, j :: 0 <= i <= j <= |s| && r == s[i..j]
  {
    var t := TrimStart(s, f);
    var r := TrimEnd(t, f);
    assert r == s[|s| - |t|..|s| - |t| + |r|];
    r
  }

  /** Python `s.strip()`: whitespace off both ends. */
  function Strip(s: string): string
    decreases |s|
  {
    if s != [] && IsPythonSpace(s[0]) then Strip(s[1..])
    else if s != [] && IsPythonSpace(s[|s| - 1]) then Strip(s[..|s| - 1])
    else s
  }

  function JsTrim(s: string): string { Trim(s, JavaScript) }

  /** A trimmed string is a fixed point of trimming. */
  lemma TrimIdempotent(s: string, f: Flavour)
    ensures Trim(Trim(s, f), f) == Trim(s, f)
  {
    var r := Trim(s, f);
    assert TrimStart(r, f) == r;
    assert TrimEnd(r, f) == r;
  }

  /** Text with no blank at either end is its own trimming. */
  lemma TrimUnpadded(s: string, f: Flavour)
    requires s != [] && !IsSpace(s[0], f) && !IsSpace(s[|s| - 1], f)
    ensures Trim(s, f) == s
  {
    assert TrimStart(s, f) == s;
    assert TrimEnd(s, f) == s;
  }

  /** Python `s.lstrip(c)` for one character. */
  function LStripChar(s: string, c: char): (r: string)
    ensures |r| <= |s| && r == s[|s| - |r|..]
    ensures forall i :: 0 <= i < |s| - |r| ==> s[i] == c
    ensures r == [] || r[0] != c
  {
    if s != [] && s[0] == c then LStripChar(s[1..], c) else s
  }

  // ------------------------------------------------------- Python int()

  /** The zero of every run of Unicode decimal digits (general category Nd,
      Unicode 15.0) outside ASCII; each run is the ten digits from its zero. */
  const DecimalZeros: seq<int> :=
    [0x0660, 0x06F0, 0x07C0, 0x0966, 0x09E6, 0x0A66, 0x0AE6, 0x0B66, 0x0BE6, 0x0C66]
    + [0x0CE6, 0x0D66, 0x0DE6, 0x0E50, 0x0ED0, 0x0F20, 0x1040, 0x1090, 0x17E0, 0x1810]
    + [0x1946, 0x19D0, 0x1A80, 0x1A90, 0x1B50, 0x1BB0, 0x1C40, 0x1C50, 0xA620, 0xA8D0]
    + [0xA900, 0xA9D0, 0xA9F0, 0xAA50, 0xABF0, 0xFF10, 0x104A0, 0x10D30, 0x11066, 0x110F0]
    + [0x11136, 0x111D0, 0x112F0, 0x11450, 0x114D0, 0x11650, 0x116C0, 0x11730, 0x118E0, 0x11950]
    + [0x11C50, 0x11D50, 0x11DA0, 0x11F50, 0x16A60, 0x16AC0, 0x16B50, 0x1D7CE, 0x1D7D8, 0x1D7E2]
    + [0x1D7EC, 0x1D7F6, 0x1E140, 0x1E2F0, 0x1E4F0, 0x1E950, 0x1FBF0]

  /** The digit a code point stands for in the first run of `zeros` that holds it. */
  function RunDigit(k: int, zeros: seq<int>): (r: Option<nat>)
    ensures r.Some? ==> r.value < 10
  {
    if zeros == [] then None
    else if zeros[0] <= k < zeros[0] + 10 then Some(k - zeros[0])
    else RunDigit(k, zeros[1..])
  }

  /** The value `int()` reads from one character: an ASCII digit, or a
      decimal digit of any other script; characters below 127 are taken as
      they are. */
  function DecimalValue(c: char): (r: Option<nat>)
    ensures r.Some? ==> r.value < 10
    ensures IsDigit(c) ==> r == Some(DigitValue(c))
    ensures c as int < 127 && !IsDigit(c) ==> r.None?
  {
    if IsDigit(c) then Some(DigitValue(c))
    else if c as int < 127 then None
    else RunDigit(c as int, DecimalZeros)
  }

  /** The whitespace `int()` skips around the number: the ASCII blanks
      `\t\n\v\f\r` and space, and every non-ASCII character `str.isspace()`
      accepts. The ASCII separators 0x1C..0x1F are not among them. */
  predicate IsIntSpace(c: char) {
    IsPythonSpace(c) && !(0x1C <= c as int <= 0x1F)
  }

  /** `int()`'s removal of surrounding whitespace. */
  function IntStrip(s: string): (r: string)
    ensures |r| <= |s|
    ensures r == [] || (!IsIntSpace(r[0]) && !IsIntSpace(r[|r| - 1]))
    decreases |s|
  {
    if s != [] && IsIntSpace(s[0]) then IntStrip(s[1..])
    else if s != [] && IsIntSpace(s[|s| - 1]) then IntStrip(s[..|s| - 1])
    else s
  }

  /** Decimal digits with single underscores between them, read in base 10;
      `None` when the text is empty, starts or ends with an underscore, has
      two in a row, or holds anything else. */
  function UnderscoredValue(s: string): (r: Option<nat>)
    decreases |s|
  {
    if s == [] then None
    else match DecimalValue(s[|s| - 1])
      case None => None
      case Some(d) =>
        var front := s[..|s| - 1];
        if front == [] then Some(d)
        else
          var digits := if front[|front| - 1] == '_' then front[..|front| - 1] else front;
          match UnderscoredValue(digits)
          case None => None
          case Some(v) => Some(v * 10 + d)
  }

  /** What `int()` reads once the whitespace is gone: at most one sign,
      then digits in the sense of `UnderscoredValue`. */
  function SignedValue(t: string): (r: Option<int>)
  {
    if t != [] && (t[0] == '+' || t[0] == '-') then
      match UnderscoredValue(t[1..])
      case None => None
      case Some(v) =>
        var n: int := if t[0] == '-' then -(v as int) else v;
        Some(n)
    else
      match UnderscoredValue(t)
      case None => None
      case Some(v) => Some(v)
  }

  /** Python's `int(s)` for a string; `None` is the `ValueError`. */
  function PythonInt(s: string): (r: Option<int>)
  {
    SignedValue(IntStrip(s))
  }

  /** A plain run of ASCII digits reads as its decimal value. */
  lemma {:induction false} UnderscoredDigits(s: string)
    requires s != [] && AllDigits(s)
    ensures UnderscoredValue(s) == Some(DigitsValue(s))
    decreases |s|
  {
    var front := s[..|s| - 1];
    if front != [] {
      assert AllDigits(front) by {
        assert forall i :: 0 <= i < |front| ==> front[i] == s[i];
      }
      assert front[|front| - 1] == s[|s| - 2];
      UnderscoredDigits(front);
    }
  }

  /** A run of ASCII digits, signed or not, reads as its decimal value. */
  lemma PythonIntDigits(s: string)
    requires s != [] && AllDigits(s)
    ensures PythonInt(s) == Some(DigitsValue(s))
    ensures PythonInt("-" + s) == Some(-(DigitsValue(s) as int))
  {
    UnderscoredDigits(s);
    assert IsDigit(s[0]) && IsDigit(s[|s| - 1]);
    assert IntStrip(s) == s;
    var m := "-" + s;
    assert m[0] == '-' && m[1..] == s && m[|m| - 1] == s[|s| - 1];
    assert IntStrip(m) == m;
  }

  /** `int()` reads back what `str()` writes, for every integer. */
  lemma PythonIntRoundTrip(i: int)
    ensures PythonInt(IntToString(i)) == Some(i)
  {
    var n := if i < 0 then -i else i;
    NatToStringRoundTrip(n);
    PythonIntDigits(NatToString(n));
  }

  lemma DigitsValue12()
    ensures AllDigits("12") && DigitsValue("12") == 12
  {
    assert "12"[..1] == "1";
  }

  /** `int()` skips surrounding blanks. */
  lemma PythonIntPadded()
    ensures PythonInt(" 12") == Some(12)
  {
    DigitsValue12();
    PythonIntDigits("12");
    PythonIntIgnoresBlanks("12");
    assert " 12" == " " + "12";
  }

  /** `int()` reads one sign. */
  lemma PythonIntSigns()
    ensures PythonInt("+12") == Some(12)
    ensures PythonInt("-1") == Some(-1)
  {
    DigitsValue12();
    UnderscoredDigits("12");
    assert IntStrip("+12") == "+12";
    assert "+12"[1..] == "12";
    PythonIntDigits("1");
    assert "-1" == "-" + "1";
  }

  /** `int()` reads single underscores between digits, and refuses a
      doubled or a trailing one. */
  lemma PythonIntUnderscores()
    ensures PythonInt("1_000") == Some(1000)
    ensures PythonInt("1__0") == None && PythonInt("12_") == None
  {
    assert UnderscoredValue("1_000") == Some(1000) by {
      assert "1_000"[..4] == "1_00" && "1_00"[..3] == "1_0" && "1_0"[..2] == "1_" && "1_"[..1] == "1";
      assert UnderscoredValue("1") == Some(1);
      assert UnderscoredValue("1_0") == Some(10);
      assert UnderscoredValue("1_00") == Some(100);
    }
    assert IntStrip("1_000") == "1_000";
    assert UnderscoredValue("1__0") == None by {
      assert "1__0"[..3] == "1__" && "1__"[..2] == "1_";
    }
    assert IntStrip("1__0") == "1__0";
    assert UnderscoredValue("12_") == None;
    assert IntStrip("12_") == "12_";
  }

  /** `int()` reads the digits of other scripts, here Arabic-Indic. */
  lemma PythonIntArabicIndic()
    ensures PythonInt("\U{0661}\U{0662}") == Some(12)
  {
    var arabic := "\U{0661}\U{0662}";
    assert arabic[0] == '\U{0661}' && arabic[1] == '\U{0662}';
    assert RunDigit(0x0661, DecimalZeros) == Some(1) && RunDigit(0x0662, DecimalZeros) == Some(2);
    assert DecimalValue(arabic[0]) == Some(1) && DecimalValue(arabic[1]) == Some(2);
    assert UnderscoredValue(arabic) == Some(12) by {
      assert arabic[..1] == [arabic[0]];
    }
    assert IntStrip(arabic) == arabic;
  }

  /** Surrounding blanks do not change what `int()` reads. */
  lemma PythonIntIgnoresBlanks(s: string)
    ensures PythonInt(" " + s) == PythonInt(s)
    ensures PythonInt(s + " ") == PythonInt(s)
  {
    IntStripBlankBefore(s);
    IntStripBlankAfter(s);
  }

  lemma IntStripBlankBefore(s: string)
    ensures IntStrip(" " + s) == IntStrip(s)
  {
    var t := " " + s;
    assert t[1..] == s;
  }

  lemma {:induction false} IntStripBlankAfter(s: string)
    ensures IntStrip(s + " ") == IntStrip(s)
    decreases |s|
  {
    var t := s + " ";
    assert t[..|t| - 1] == s;
    if s != [] && IsIntSpace(s[0]) {
      assert t[0] == s[0] && t[1..] == s[1..] + " ";
      IntStripBlankAfter(s[1..]);
    } else if s != [] {
      assert t[0] == s[0];
    }
  }

  // ------------------------------------------------------- search & split

  predicate StartsWith(s: string, p: string) { |p| <= |s| && s[..|p|] == p }

  predicate OccursAt(s: string, p: string, i: nat) { i + |p| <= |s| && s[i..i + |p|] == p }

  /** Index of the leftmost occurrence of `p` in `s` (`s.find(p)`), if any. */
  function Find(s: string, p: string): (r: Option<nat>)
    ensures r.Some? ==> OccursAt(s, p, r.value) && forall j :: 0 <= j < r.value ==> !OccursAt(s, p, j)
    ensures r.None? ==> forall j :: 0 <= j <= |s| ==> !OccursAt(s, p, j)
    decreases |s|
  {
    if |p| > |s| then None
    else if s[..|p|] == p then Some(0)
    else
      var rest := Find(s[1..], p);
      match rest
      case None =>
        assert forall j :: 1 <= j <= |s| ==> (OccursAt(s, p, j) <==> OccursAt(s[1..], p, j - 1));
        None
      case Some(k) =>
        assert forall j :: 1 <= j <= |s| ==> (OccursAt(s, p, j) <==> OccursAt(s[1..], p, j - 1));
        Some(k + 1)
  }

  predicate Contains(s: string, p: string) { Find(s, p).Some? }

  /** An occurrence with none before it is the one `Find` reports. */
  lemma FindLeftmost(s: string, p: string, i: nat)
    requires OccursAt(s, p, i)
    requires forall j :: 0 <= j < i ==> !OccursAt(s, p, j)
    ensures Find(s, p) == Some(i)
  {
  }

  /** Python `s.split(sep)` / JavaScript `s.split(sep)` with a non-empty separator. */
  function Split(s: string, sep: string): (parts: seq<string>)
    requires |sep| > 0
    ensures |parts| >= 1
    ensures Find(s, sep).None? ==> parts == [s]
    decreases |s|
  {
    match Find(s, sep)
    case None => [s]
    case Some(i) => [s[..i]] + Split(s[i + |sep|..], sep)
  }

  /** Python `sep.join(parts)` / JavaScript `parts.join(sep)`. */
  function Join(parts: seq<string>, sep: string): string {
    if parts == [] then ""
    else if |parts| == 1 then parts[0]
    else parts[0] + sep + Join(parts[1..], sep)
  }

  lemma JoinCons(head: string, tail: seq<string>, sep: string)
    requires |tail| >= 1
    ensures Join([head] + tail, sep) == head + sep + Join(tail, sep)
  {
    var p := [head] + tail;
    assert p[0] == head && p[1..] == tail;
  }

  lemma Reassemble(s: string, p: string, i: nat)
    requires OccursAt(s, p, i)
    ensures s[..i] + p + s[i + |p|..] == s
  {
    assert s[i..i + |p|] == p;
  }

  /** One step of `Split`: the piece before the first separator, then the
      split of what follows it. */
  lemma SplitStep(s: string, sep: string)
    requires |sep| > 0 && Find(s, sep).Some?
    ensures var i := Find(s, sep).value;
      i + |sep| <= |s|
      && Split(s, sep) == [s[..i]] + Split(s[i + |sep|..], sep)
      && s == s[..i] + sep + s[i + |sep|..]
  {
    Reassemble(s, sep, Find(s, sep).value);
  }

  /** Splitting and joining with the same separator gives back the string. */
  lemma {:induction false} JoinSplit(s: string, sep: string)
    requires |sep| > 0
    ensures Join(Split(s, sep), sep) == s
    decreases |s|
  {
    if Find(s, sep).Some? {
      var i := Find(s, sep).value;
      SplitStep(s, sep);
      var rest := s[i + |sep|..];
      JoinSplit(rest, sep);
      JoinCons(s[..i], Split(rest, sep), sep);
    }
  }

  /** The text before the leftmost occurrence holds no occurrence. */
  lemma BeforeFirstFree(s: string, sep: string, i: nat)
    requires |sep| > 0 && Find(s, sep) == Some(i)
    ensures !Contains(s[..i], sep)
  {
    var head := s[..i];
    if Find(head, sep).Some? {
      var j := Find(head, sep).value;
      assert j < i;
      assert head[j..j + |sep|] == s[j..j + |sep|];
      assert OccursAt(s, sep, j);
      assert false;
    }
  }

  /** No piece of a split contains the separator. */
  lemma {:induction false} SplitPiecesFree(s: string, sep: string)
    requires |sep| > 0
    ensures forall k :: 0 <= k < |Split(s, sep)| ==> !Contains(Split(s, sep)[k], sep)
    decreases |s|
  {
    match Find(s, sep)
    case None =>
    case Some(i) =>
      SplitStep(s, sep);
      var rest := s[i + |sep|..];
      SplitPiecesFree(rest, sep);
      BeforeFirstFree(s, sep, i);
      var parts := Split(s, sep);
      forall k | 0 <= k < |parts|
        ensures !Contains(parts[k], sep)
      {
        if k > 0 {
          assert parts[k] == Split(rest, sep)[k - 1];
        }
      }
  }

  /** A pattern whose first character is absent does not occur. */
  lemma FirstCharAbsent(s: string, p: string)
    requires |p| > 0 && p[0] !in s
    ensures !Contains(s, p)
  {
    forall j | 0 <= j <= |s|
      ensures !OccursAt(s, p, j)
    {
      if j + |p| <= |s| {
        assert s[j..j + |p|][0] == s[j];
      }
    }
  }

  /** A text with one occurrence of the separator, the leftmost, and none
      after it splits into the two pieces around it. */
  lemma SplitOnce(s: string, sep: string, i: nat)
    requires |sep| > 0 && OccursAt(s, sep, i)
    requires forall j :: 0 <= j < i ==> !OccursAt(s, sep, j)
    requires !Contains(s[i + |sep|..], sep)
    ensures Split(s, sep) == [s[..i], s[i + |sep|..]]
  {
    FindLeftmost(s, sep, i);
    SplitStep(s, sep);
  }

  /** The first occurrence of a one-character separator. */
  lemma FindChar(v: string, sep: char, i: nat)
    requires i < |v| && v[i] == sep && sep !in v[..i]
    ensures Find(v, [sep]) == Some(i)
  {
    assert v[i..i + 1] == [sep];
    forall k | 0 <= k < i
      ensures !OccursAt(v, [sep], k)
    {
      assert v[..i][k] in v[..i];
      assert v[k..k + 1] == [v[..i][k]];
    }
    FindLeftmost(v, [sep], i);
  }

  /** A text without the separator is one piece. */
  lemma SplitNone(v: string, sep: char)
    requires sep !in v
    ensures Split(v, [sep]) == [v]
  {
    forall k | 0 <= k < |v|
      ensures !OccursAt(v, [sep], k)
    {
      assert v[k..k + 1] == [v[k]];
    }
  }

  /** A text with the separator at `i` and nowhere else splits into the two
      pieces around it. */
  lemma SplitTwo(v: string, sep: char, i: nat)
    requires i < |v| && v[i] == sep && sep !in v[..i] && sep !in v[i + 1..]
    ensures Split(v, [sep]) == [v[..i], v[i + 1..]]
  {
    FindChar(v, sep, i);
    SplitNone(v[i + 1..], sep);
  }

  /** A text with the separator at `i` and `j` and nowhere else splits into
      the three pieces around them. */
  lemma SplitThree(v: string, sep: char, i: nat, j: nat)
    requires i < j < |v| && v[i] == sep && v[j] == sep
    requires sep !in v[..i] && sep !in v[i + 1..j] && sep !in v[j + 1..]
    ensures Split(v, [sep]) == [v[..i], v[i + 1..j], v[j + 1..]]
  {
    var rest := v[i + 1..];
    var k := j - i - 1;
    assert rest[..k] == v[i + 1..j];
    assert rest[k] == sep;
    assert rest[k + 1..] == v[j + 1..];
    SplitTwo(rest, sep, k);
    SplitAt(v, sep, i);
  }

  /** Splitting at the first separator. */
  lemma SplitAt(v: string, sep: char, i: nat)
    requires i < |v| && v[i] == sep && sep !in v[..i]
    ensures Split(v, [sep]) == [v[..i]] + Split(v[i + 1..], [sep])
  {
    FindChar(v, sep, i);
  }

  /** Joining pieces free of a one-character separator and splitting on it
      again gives back the pieces. */
  lemma {:induction false} SplitJoinChar(parts: seq<string>, sep: char)
    requires |parts| >= 1
    requires forall k :: 0 <= k < |parts| ==> sep !in parts[k]
    ensures Split(Join(parts, [sep]), [sep]) == parts
    decreases |parts|
  {
    if |parts| == 1 {
      SplitNone(parts[0], sep);
    } else {
      var rest := Join(parts[1..], [sep]);
      var s := parts[0] + [sep] + rest;
      assert s[..|parts[0]|] == parts[0] && s[|parts[0]|] == sep && s[|parts[0]| + 1..] == rest;
      SplitAt(s, sep, |parts[0]|);
      SplitJoinChar(parts[1..], sep);
      assert parts == [parts[0]] + parts[1..];
    }
  }

  /** Text with no whitespace at either end is its own stripping. */
  lemma StripUnpadded(s: string)
    requires s != [] && !IsPythonSpace(s[0]) && !IsPythonSpace(s[|s| - 1])
    ensures Strip(s) == s
  {
  }

  /** A stripped string has no whitespace at either end. */
  lemma {:induction false} StripEnds(s: string)
    ensures Strip(s) == [] || (!IsPythonSpace(Strip(s)[0]) && !IsPythonSpace(Strip(s)[|Strip(s)| - 1]))
    decreases |s|
  {
    if s != [] && IsPythonSpace(s[0]) {
      StripEnds(s[1..]);
    } else if s != [] && IsPythonSpace(s[|s| - 1]) {
      StripEnds(s[..|s| - 1]);
    }
  }

  /** Stripping twice strips no more than once. */
  lemma StripIdempotent(s: string)
    ensures Strip(Strip(s)) == Strip(s)
  {
    StripEnds(s);
  }

  /** Stripping a trailing or leading blank off unpadded text. */
  lemma StripBlankAfter(s: string)
    requires s != [] && !IsPythonSpace(s[0]) && !IsPythonSpace(s[|s| - 1])
    ensures Strip(s + " ") == s
  {
    var t := s + " ";
    assert t[0] == s[0] && t[|t| - 1] == ' ';
    assert t[..|t| - 1] == s;
  }

  lemma StripBlankBefore(s: string)
    requires s != [] && !IsPythonSpace(s[0]) && !IsPythonSpace(s[|s| - 1])
    ensures Strip(" " + s) == s
  {
    var t := " " + s;
    assert t[1..] == s;
  }

  /** Python `s.replace(pat, rep)` / JavaScript `s.replace(/pat/g, rep)`. */
  function ReplaceAll(s: string, pat: string, rep: string): (r: string)
    requires |pat| > 0
    ensures !Contains(s, pat) ==> r == s
  {
    Join(Split(s, pat), rep)
  }

  /** JavaScript `s.replace(pat, rep)` with a string pattern: the first occurrence only. */
  function ReplaceFirst(s: string, pat: string, rep: string): (r: string)
    ensures Find(s, pat).None? ==> r == s
    ensures Find(s, pat).Some? ==>
      var i := Find(s, pat).value; r == s[..i] + rep + s[i + |pat|..]
  {
    match Find(s, pat)
    case None => s
    case Some(i) => s[..i] + rep + s[i + |pat|..]
  }

  /** Replacing a pattern by itself changes nothing. */
  lemma ReplaceAllSelf(s: string, pat: string)
    requires |pat| > 0
    ensures ReplaceAll(s, pat, pat) == s
  {
    JoinSplit(s, pat);
  }

  predicate NoSpace(w: string) { forall i :: 0 <= i < |w| ==> !IsPythonSpace(w[i]) }

  /** Python `s.split()` with no argument: the maximal runs of non-whitespace. */
  function Words(s: string): (ws: seq<string>)
    ensures forall k :: 0 <= k < |ws| ==> |ws[k]| > 0 && NoSpace(ws[k])
    decreases |s|
  {
    var t := TrimStart(s, Python);
    if t == [] then []
    else
      var n := WordLength(t);
      var w := t[..n];
      var rest := Words(t[n..]);
      assert |w| > 0 && NoSpace(w);
      assert forall k :: 0 < k <= |rest| ==> ([w] + rest)[k] == rest[k - 1];
      [w] + rest
  }

  /** Length of the run of non-whitespace at the head of `t`. */
  function WordLength(t: string): (n: nat)
    ensures n <= |t|
    ensures forall i :: 0 <= i < n ==> !IsPythonSpace(t[i])
    ensures n < |t| ==> IsPythonSpace(t[n])
    ensures t != [] && !IsPythonSpace(t[0]) ==> n > 0
  {
    if t == [] || IsPythonSpace(t[0]) then 0 else 1 + WordLength(t[1..])
  }

  /** A run of non-blanks followed by a blank or the end is one word long. */
  lemma {:induction false} WordLengthOf(w: string, rest: string)
    requires NoSpace(w)
    requires rest == [] || IsPythonSpace(rest[0])
    ensures WordLength(w + rest) == |w|
    decreases |w|
  {
    if w != [] {
      assert (w + rest)[1..] == w[1..] + rest;
      WordLengthOf(w[1..], rest);
    }
  }

  /** A word followed by a blank or the end is the first word. */
  lemma WordsCons(w: string, rest: string)
    requires |w| > 0 && NoSpace(w)
    requires rest == [] || IsPythonSpace(rest[0])
    ensures Words(w + rest) == [w] + Words(rest)
  {
    var s := w + rest;
    assert !IsPythonSpace(s[0]);
    assert TrimStart(s, Python) == s;
    WordLengthOf(w, rest);
    assert s[..|w|] == w && s[|w|..] == rest;
  }

  /** A leading blank does not change the words. */
  lemma WordsBlank(c: char, rest: string)
    requires IsPythonSpace(c)
    ensures Words([c] + rest) == Words(rest)
  {
    assert ([c] + rest)[1..] == rest;
    assert TrimStart([c] + rest, Python) == TrimStart(rest, Python);
  }

  /** Two words joined by one blank split back into those two words. */
  lemma TwoWords(a: string, b: string)
    requires |a| > 0 && |b| > 0 && NoSpace(a) && NoSpace(b)
    ensures Words(a + ([' '] + b)) == [a] + [b]
  {
    var t := [' '] + b;
    assert t[0] == ' ' && t[1..] == b;
    WordsCons(a, t);
    BlankWord(b);
  }

  /** A blank then one word is that one word. */
  lemma BlankWord(w: string)
    requires |w| > 0 && NoSpace(w)
    ensures Words([' '] + w) == [w]
  {
    WordsBlank(' ', w);
    OneWord(w);
  }

  /** A single word splits into itself. */
  lemma OneWord(w: string)
    requires |w| > 0 && NoSpace(w)
    ensures Words(w) == [w]
  {
    WordsCons(w, []);
    assert w + [] == w;
  }

  /** The pieces of a split that are not empty (`.filter(p => p.length > 0)`). */
  function NonEmpty(parts: seq<string>): (r: seq<string>)
    ensures |r| <= |parts|
    ensures forall k :: 0 <= k < |r| ==> |r[k]| > 0
  {
    if parts == [] then []
    else if parts[0] == "" then NonEmpty(parts[1..])
    else [parts[0]] + NonEmpty(parts[1..])
  }

  /** Pieces that are all non-empty pass the filter unchanged. */
  lemma {:induction false} NonEmptyKeeps(parts: seq<string>)
    requires forall k :: 0 <= k < |parts| ==> parts[k] != ""
    ensures NonEmpty(parts) == parts
  {
    if parts != [] {
      NonEmptyKeeps(parts[1..]);
      assert parts == [parts[0]] + parts[1..];
    }
  }

  // ----------------------------------------------------------- case mapping

  /** Lower-case mapping for ASCII and the Cyrillic block U+0400..U+045F plus Ґ. */
  function LowerChar(c: char): (r: char)
    ensures IsDigit(c) ==> r == c
  {
    var k := c as int;
    if 'A' <= c <= 'Z' then (k + 32) as char
    else if 0x410 <= k <= 0x42F then (k + 32) as char
    else if 0x400 <= k <= 0x40F then (k + 80) as char
    else if k == 0x490 then 0x491 as char
    else c
  }

  function UpperChar(c: char): (r: char) {
    var k := c as int;
    if 'a' <= c <= 'z' then (k - 32) as char
    else if 0x430 <= k <= 0x44F then (k - 32) as char
    else if 0x450 <= k <= 0x45F then (k - 80) as char
    else if k == 0x491 then 0x490 as char
    else c
  }

  predicate IsLowerMapped(c: char) {
    var k := c as int;
    ('a' <= c <= 'z') || (0x430 <= k <= 0x45F) || k == 0x491
  }

  /** `s.lower()`: same length, character by character. */
  function Lower(s: string): (r: string)
    ensures |r| == |s|
    ensures forall i :: 0 <= i < |s| ==> r[i] == LowerChar(s[i])
  {
    seq(|s|, i requires 0 <= i < |s| => LowerChar(s[i]))
  }

  function Upper(s: string): (r: string)
    ensures |r| == |s|
    ensures forall i :: 0 <= i < |s| ==> r[i] == UpperChar(s[i])
  {
    seq(|s|, i requires 0 <= i < |s| => UpperChar(s[i]))
  }

  /** Lower-casing is idempotent, and it undoes upper-casing on lower-case text. */
  lemma LowerIdempotent(s: string)
    ensures Lower(Lower(s)) == Lower(s)
  {
  }

  lemma LowerUpperChar(c: char)
    requires IsLowerMapped(c)
    ensures LowerChar(UpperChar(c)) == c
  {
  }
}
