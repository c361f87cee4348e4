/**
 * The Python text operations the pipeline is built on: `str(n)`, `int(s)`,
 * `str.split`, `"-".join`, `str.rstrip`, `os.path.basename`,
 * `os.path.splitext` and `str.format(x=…, y=…, z=…)`, each with the
 * semantics CPython gives it on the inputs the pipeline produces.
 */
module Text {
  import opened Common

  predicate IsDigit(c: char) { '0' <= c <= '9' }

  predicate AllDigits(s: string) { forall i :: 0 <= i < |s| ==> IsDigit(s[i]) }

  /** A run of digits holds no character that is not a digit. */
  lemma DigitsExclude(s: string, c: char)
    requires AllDigits(s) && !IsDigit(c)
    ensures c !in s
  {
    assert forall i :: 0 <= i < |s| ==> s[i] != c;
  }

  function DigitChar(d: nat): (c: char)
    requires d < 10
    ensures IsDigit(c) && c as int - '0' as int == d
  {
    ('0' as int + d) as char
  }

  /** `str(n)` for a natural number: decimal digits, no sign, no leading zero. */
  function NatToString(n: nat): (s: string)
    ensures |s| >= 1 && AllDigits(s)
    ensures |s| > 1 ==> s[0] != '0'
    decreases n
  {
    if n < 10 then [DigitChar(n)] else NatToString(n / 10) + [DigitChar(n % 10)]
  }

  /** `str(i)` for any integer: a `-` in front of negative numbers. */
  function IntToString(i: int): (s: string)
    ensures |s| >= 1
  {
    if i < 0 then "-" + NatToString(-i) else NatToString(i)
  }

  /** The number a run of decimal digits denotes (leading zeros allowed, as `int` allows them). */
  function DigitsValue(s: string): nat
    requires AllDigits(s)
    decreases |s|
  {
    if |s| == 0 then 0 else DigitsValue(s[..|s| - 1]) * 10 + (s[|s| - 1] as int - '0' as int)
  }

  /**
   * `int(s)`: an optional `+` or `-` followed by at least one ASCII digit;
   * `None` stands for the `ValueError` Python raises on anything else.
   */
  function ParseInt(s: string): (r: Option<int>)
    ensures r.Some? <==> (|s| > 0 && AllDigits(s)) || (|s| > 1 && (s[0] == '-' || s[0] == '+') && AllDigits(s[1..]))
    ensures AllDigits(s) && |s| >= 1 ==> r == Some(DigitsValue(s))
    ensures |s| > 1 && s[0] == '-' && AllDigits(s[1..]) ==> r == Some(-(DigitsValue(s[1..]) as int))
    ensures |s| > 1 && s[0] == '+' && AllDigits(s[1..]) ==> r == Some(DigitsValue(s[1..]))
    ensures r.Some? && r.value < 0 ==> s[0] == '-'
  {
    if |s| > 0 && (s[0] == '-' || s[0] == '+') then
      var d := s[1..];
      if |d| > 0 && AllDigits(d) then
        var v: int := DigitsValue(d);
        Some(if s[0] == '-' then -v else v)
      else None
    else if |s| > 0 && AllDigits(s) then Some(DigitsValue(s))
    else None
  }

  lemma {:induction false} DigitsValueOfNatToString(n: nat)
    ensures DigitsValue(NatToString(n)) == n
    decreases n
  {
    if n >= 10 {
      DigitsValueOfNatToString(n / 10);
      var s := NatToString(n);
      assert s[..|s| - 1] == NatToString(n / 10);
    }
  }

  /** `int(str(i)) == i` for every integer. */
  lemma IntRoundTrip(i: int)
    ensures ParseInt(IntToString(i)) == Some(i)
  {
    var s := IntToString(i);
    if i < 0 {
      var d := NatToString(-i);
      DigitsValueOfNatToString(-i);
      assert s[0] == '-' && s[1..] == d;
    } else {
      DigitsValueOfNatToString(i);
      assert IsDigit(s[0]);
    }
  }

  /** Distinct numbers have distinct decimal forms. */
  lemma NatToStringInjective(a: nat, b: nat)
    ensures NatToString(a) == NatToString(b) ==> a == b
  {
    DigitsValueOfNatToString(a);
    DigitsValueOfNatToString(b);
  }

  /** `s.split(sep)` for a one-character separator: empty fields are kept, no maximum. */
  function Split(s: string, sep: char): (parts: seq<string>)
    ensures |parts| >= 1
    ensures forall k :: 0 <= k < |parts| ==> sep !in parts[k]
    decreases |s|
  {
    if |s| == 0 then [""]
    else
      var rest := Split(s[1..], sep);
      if s[0] == sep then [""] + rest else [[s[0]] + rest[0]] + rest[1..]
  }

  /** `sep.join(parts)` for a non-empty list of parts. */
  function Join(parts: seq<string>, sep: char): string
    requires |parts| >= 1
    decreases |parts|
  {
    if |parts| == 1 then parts[0] else parts[0] + [sep] + Join(parts[1..], sep)
  }

  lemma {:induction false} SplitWithoutSeparator(s: string, sep: char)
    requires sep !in s
    ensures Split(s, sep) == [s]
    decreases |s|
  {
    if |s| > 0 {
      SplitWithoutSeparator(s[1..], sep);
      assert [s[0]] + s[1..] == s;
    }
  }

  lemma {:induction false} SplitAfterField(p: string, sep: char, rest: string)
    requires sep !in p
    ensures Split(p + [sep] + rest, sep) == [p] + Split(rest, sep)
    decreases |p|
  {
    var t := p + [sep] + rest;
    if |p| == 0 {
      assert t[1..] == rest;
    } else {
      assert t[1..] == p[1..] + [sep] + rest;
      SplitAfterField(p[1..], sep, rest);
      assert [p[0]] + p[1..] == p;
    }
  }

  /** Splitting a join of separator-free parts gives the parts back. */
  lemma {:induction false} SplitJoin(parts: seq<string>, sep: char)
    requires |parts| >= 1
    requires forall k :: 0 <= k < |parts| ==> sep !in parts[k]
    ensures Split(Join(parts, sep), sep) == parts
    decreases |parts|
  {
    if |parts| == 1 {
      SplitWithoutSeparator(parts[0], sep);
    } else {
      SplitJoin(parts[1..], sep);
      SplitAfterField(parts[0], sep, Join(parts[1..], sep));
      assert [parts[0]] + parts[1..] == parts;
    }
  }

  /** Joining the fields of a split gives the text back. */
  lemma {:induction false} JoinSplit(s: string, sep: char)
    ensures Join(Split(s, sep), sep) == s
    decreases |s|
  {
    if |s| > 0 {
      JoinSplit(s[1..], sep);
      var rest := Split(s[1..], sep);
      if s[0] != sep {
        var parts := Split(s, sep);
        assert parts[0] == [s[0]] + rest[0];
        if |rest| > 1 {
          assert parts[1..] == rest[1..];
        }
      }
    }
  }

  /** `s.rstrip(c)`: `s` with every trailing `c` removed. */
  function RStrip(s: string, c: char): (r: string)
    ensures |r| <= |s| && r == s[..|r|]
    ensures |r| == 0 || r[|r| - 1] != c
    ensures forall k :: |r| <= k < |s| ==> s[k] == c
    decreases |s|
  {
    if |s| > 0 && s[|s| - 1] == c then RStrip(s[..|s| - 1], c) else s
  }

  /** Stripping twice strips nothing more. */
  lemma RStripIdempotent(s: string, c: char)
    ensures RStrip(RStrip(s, c), c) == RStrip(s, c)
  {
  }

  /** `os.path.basename` on POSIX: what follows the last `/`. */
  function Basename(p: string): (b: string)
    ensures '/' !in b
    ensures |b| <= |p| && b == p[|p| - |b|..]
    ensures |b| < |p| ==> p[|p| - |b| - 1] == '/'
    decreases |p|
  {
    if |p| == 0 || p[|p| - 1] == '/' then "" else Basename(p[..|p| - 1]) + [p[|p| - 1]]
  }

  lemma {:induction false} BasenameAfterSlash(dir: string, name: string)
    requires '/' !in name
    ensures Basename(dir + "/" + name) == name
    decreases |name|
  {
    var p := dir + "/" + name;
    if |name| > 0 {
      assert p[..|p| - 1] == dir + "/" + name[..|name| - 1];
      BasenameAfterSlash(dir, name[..|name| - 1]);
      assert name[..|name| - 1] + [name[|name| - 1]] == name;
    }
  }

  /** Index of the last occurrence of `c` in `s`, or -1 (`str.rfind`). */
  function LastIndexOf(s: string, c: char): (i: int)
    ensures -1 <= i < |s|
    ensures i >= 0 ==> s[i] == c
    ensures forall k :: i < k < |s| ==> s[k] != c
    decreases |s|
  {
    if |s| == 0 then -1 else if s[|s| - 1] == c then |s| - 1 else LastIndexOf(s[..|s| - 1], c)
  }

  /**
   * `os.path.splitext(p)[0]` on POSIX: `p` without its extension, where the
   * extension starts at the last `.` of the last path component, provided
   * that component has a character other than `.` before it.
   */
  function SplitExtRoot(p: string): string
  {
    var dot := LastIndexOf(p, '.');
    var sep := LastIndexOf(p, '/');
    if dot > sep && exists k :: sep < k < dot && p[k] != '.' then p[..dot] else p
  }

  /** A text without a dot has no extension. */
  lemma SplitExtRootNoDot(p: string)
    requires '.' !in p
    ensures SplitExtRoot(p) == p
  {
  }

  /**
   * A name `root.ext` whose extension holds no `.` or `/`, and whose last
   * component has a character other than `.` before that dot, loses
   * exactly `.ext`.
   */
  lemma SplitExtRootDotted(root: string, ext: string)
    requires '.' !in ext && '/' !in ext
    requires exists k :: LastIndexOf(root, '/') < k < |root| && root[k] != '.'
    ensures SplitExtRoot(root + "." + ext) == root
  {
    var p := root + "." + ext;
    LastIndexAfter(root, ext, '.');
    LastIndexAfter(root, ext, '/');
    var k :| LastIndexOf(root, '/') < k < |root| && root[k] != '.';
    assert p[k] == root[k];
    assert p[..|root|] == root;
  }

  /** The last `c` of `root + "." + ext`, for an `ext` without `c`: the dot when c is `.`, else the one in root. */
  lemma {:induction false} LastIndexAfter(root: string, ext: string, c: char)
    requires c !in ext
    ensures LastIndexOf(root + "." + ext, c) == if c == '.' then |root| else LastIndexOf(root, c)
  {
    var p := root + "." + ext;
    if c == '.' {
      assert p[|root|] == '.';
      assert forall k :: |root| < k < |p| ==> p[k] == ext[k - |root| - 1];
    } else {
      assert forall k :: |root| <= k < |p| ==> p[k] != c by {
        assert forall k :: |root| < k < |p| ==> p[k] == ext[k - |root| - 1];
      }
      assert forall k :: 0 <= k < |root| ==> p[k] == root[k];
    }
  }

  /** One piece of a URL template: a literal character or one of the fields `{x}`, `{y}`, `{z}`. */
  datatype Piece = Lit(c: char) | FieldX | FieldY | FieldZ

  /** The text of a template: literal braces doubled, fields written `{x}`, `{y}`, `{z}`. */
  function TemplateText(ps: seq<Piece>): string
    decreases |ps|
  {
    if |ps| == 0 then ""
    else
      var head := match ps[0]
        case Lit(c) => if c == '{' || c == '}' then [c, c] else [c]
        case FieldX => "{x}"
        case FieldY => "{y}"
        case FieldZ => "{z}";
      head + TemplateText(ps[1..])
  }

  /** What a template stands for once its fields are given values. */
  function Substitute(ps: seq<Piece>, x: string, y: string, z: string): string
    decreases |ps|
  {
    if |ps| == 0 then ""
    else
      var head := match ps[0]
        case Lit(c) => [c]
        case FieldX => x
        case FieldY => y
        case FieldZ => z;
      head + Substitute(ps[1..], x, y, z)
  }

  function Prepend(p: string, r: Option<string>): Option<string>
  {
    if r.Some? then Some(p + r.value) else None
  }

  /**
   * `t.format(x=x, y=y, z=z)`. `None` stands for the exception Python raises
   * for a lone `{` or `}` or for a replacement field other than the three
   * named ones (`KeyError` for another name, `IndexError` for `{}`).
   */
  function FormatXyz(t: string, x: string, y: string, z: string): Option<string>
    decreases |t|
  {
    if |t| == 0 then Some("")
    else if t[0] == '{' then
      if |t| >= 2 && t[1] == '{' then Prepend("{", FormatXyz(t[2..], x, y, z))
      else if |t| >= 3 && t[2] == '}' && t[1] == 'x' then Prepend(x, FormatXyz(t[3..], x, y, z))
      else if |t| >= 3 && t[2] == '}' && t[1] == 'y' then Prepend(y, FormatXyz(t[3..], x, y, z))
      else if |t| >= 3 && t[2] == '}' && t[1] == 'z' then Prepend(z, FormatXyz(t[3..], x, y, z))
      else None
    else if t[0] == '}' then
      if |t| >= 2 && t[1] == '}' then Prepend("}", FormatXyz(t[2..], x, y, z)) else None
    else Prepend([t[0]], FormatXyz(t[1..], x, y, z))
  }

  /** Formatting a template's text replaces each field by its value and undoubles literal braces. */
  lemma {:induction false} FormatSubstitutes(ps: seq<Piece>, x: string, y: string, z: string)
    ensures FormatXyz(TemplateText(ps), x, y, z) == Some(Substitute(ps, x, y, z))
    decreases |ps|
  {
    if |ps| > 0 {
      FormatSubstitutes(ps[1..], x, y, z);
      var rest := TemplateText(ps[1..]);
      var t := TemplateText(ps);
      match ps[0]
      case Lit(c) =>
        if c == '{' || c == '}' {
          assert t == [c, c] + rest && t[2..] == rest;
        } else {
          assert t == [c] + rest && t[1..] == rest;
        }
      case FieldX =>
        assert t == "{x}" + rest && t[3..] == rest;
      case FieldY =>
        assert t == "{y}" + rest && t[3..] == rest;
      case FieldZ =>
        assert t == "{z}" + rest && t[3..] == rest;
    }
  }
}
