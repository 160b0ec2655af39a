/**
 * Shared vocabulary of the solvers: results that may fail (where the Python code raises),
 * Python's `str.split`, decimal `int(...)`/`str(...)` conversions and small folds over
 * sequences.
 */
module Util {

  /** A value or nothing, as Python's `None`. */
  datatype Option<T> = None | Some(value: T)

  /** A value, or the exception the Python code raises instead. */
  datatype Result<T> = Ok(value: T) | Err(msg: string)

  // ---------------------------------------------------------------------------
  // Folds over sequences
  // ---------------------------------------------------------------------------

  /** A non-empty sequence is its prefix and its last element. */
  lemma SnocLast<T>(s: seq<T>)
    requires |s| > 0
    ensures s == s[..|s| - 1] + [s[|s| - 1]]
  {
  }

  /** Appending two elements one at a time. */
  lemma SnocTwo<T>(s: seq<T>, x: T, y: T)
    ensures s + [x] + [y] == s + [x, y]
  {
  }

  /** Regrouping three appended elements. */
  lemma Regroup3<T>(s: seq<T>, x: T, y: T, z: T)
    ensures s + [x, y] + [z] == (s + [x]) + [y, z]
  {
  }

  /** No element of the sequence appears twice. */
  predicate Distinct<T(==)>(s: seq<T>)
  {
    forall i, j :: 0 <= i < j < |s| ==> s[i] != s[j]
  }

  /** In a sequence without repeats no element occurs before its own position. */
  lemma DistinctNotBefore<T>(s: seq<T>, k: int)
    requires Distinct(s) && 0 <= k < |s|
    ensures s[k] !in s[..k]
  {
    forall j | 0 <= j < k
      ensures s[..k][j] != s[k]
    {
      assert s[..k][j] == s[j];
    }
  }

  /** Two sequences without repeats and without common elements concatenate to one without repeats. */
  lemma ConcatDistinct<T>(a: seq<T>, b: seq<T>)
    requires Distinct(a) && Distinct(b) && forall x :: x in a ==> x !in b
    ensures Distinct(a + b)
  {
    forall i, j | 0 <= i < j < |a + b|
      ensures (a + b)[i] != (a + b)[j]
    {
      if i < |a| && j >= |a| {
        assert (a + b)[i] in a && (a + b)[j] == b[j - |a|];
      }
    }
  }

  /** Python's `sum(xs)`. */
  function Sum(xs: seq<int>): int
  {
    if xs == [] then 0 else Sum(xs[..|xs| - 1]) + xs[|xs| - 1]
  }

  lemma {:induction false} SumAppend(xs: seq<int>, ys: seq<int>)
    ensures Sum(xs + ys) == Sum(xs) + Sum(ys)
    decreases |ys|
  {
    if ys == [] {
      assert xs + ys == xs;
    } else {
      assert (xs + ys)[..|xs + ys| - 1] == xs + ys[..|ys| - 1];
      SumAppend(xs, ys[..|ys| - 1]);
    }
  }

  lemma SumTwo(x: int, y: int)
    ensures Sum([x, y]) == x + y
  {
    assert [x, y][..1] == [x] && [x][..0] == [];
    assert Sum([x]) == x;
  }

  lemma {:induction false} SumNonNegative(xs: seq<int>)
    requires forall k :: 0 <= k < |xs| ==> xs[k] >= 0
    ensures Sum(xs) >= 0
    decreases |xs|
  {
    if xs != [] {
      SumNonNegative(xs[..|xs| - 1]);
    }
  }

  /** Python's `xs.count(x)`. */
  function Count<T(==)>(xs: seq<T>, x: T): nat
  {
    if xs == [] then 0 else Count(xs[..|xs| - 1], x) + (if xs[|xs| - 1] == x then 1 else 0)
  }

  lemma {:induction false} CountAppend<T>(xs: seq<T>, ys: seq<T>, x: T)
    ensures Count(xs + ys, x) == Count(xs, x) + Count(ys, x)
    decreases |ys|
  {
    if ys == [] {
      assert xs + ys == xs;
    } else {
      assert (xs + ys)[..|xs + ys| - 1] == xs + ys[..|ys| - 1];
      CountAppend(xs, ys[..|ys| - 1], x);
    }
  }

  /** Appending one element counts it once more and leaves every other count alone. */
  lemma CountSnoc<T>(xs: seq<T>, y: T, x: T)
    ensures Count(xs + [y], x) == Count(xs, x) + (if y == x then 1 else 0)
  {
    assert (xs + [y])[..|xs|] == xs;
  }

  /** An element occurs in a sequence exactly when it is counted there at least once. */
  lemma {:induction false} CountPositive<T>(xs: seq<T>, x: T)
    ensures x in xs <==> Count(xs, x) > 0
    decreases |xs|
  {
    if xs != [] {
      var init := xs[..|xs| - 1];
      assert xs == init + [xs[|xs| - 1]];
      CountPositive(init, x);
    }
  }

  /** Python's `abs` on integers. */
  function Abs(n: int): (a: nat)
    ensures a == n || a == -n
  {
    if n < 0 then -n else n
  }

  /** Python's `min(a, b)`. */
  function Min2(a: int, b: int): (m: int)
    ensures m <= a && m <= b && (m == a || m == b)
  {
    if a <= b then a else b
  }

  /** Python's `max(a, b)`. */
  function Max2(a: int, b: int): (m: int)
    ensures m >= a && m >= b && (m == a || m == b)
  {
    if a <= b then b else a
  }

  /** Python's `min(xs)`, which raises on an empty list. */
  function Min(xs: seq<int>): (m: int)
    requires xs != []
    ensures m in xs && forall k :: 0 <= k < |xs| ==> m <= xs[k]
  {
    if |xs| == 1 then xs[0]
    else
      var m := Min(xs[..|xs| - 1]);
      assert xs[..|xs| - 1] + [xs[|xs| - 1]] == xs;
      if xs[|xs| - 1] < m then xs[|xs| - 1] else m
  }

  /** Python's `max(xs)`, which raises on an empty list. */
  function Max(xs: seq<int>): (m: int)
    requires xs != []
    ensures m in xs && forall k :: 0 <= k < |xs| ==> xs[k] <= m
  {
    if |xs| == 1 then xs[0]
    else
      var m := Max(xs[..|xs| - 1]);
      assert xs[..|xs| - 1] + [xs[|xs| - 1]] == xs;
      if xs[|xs| - 1] > m then xs[|xs| - 1] else m
  }

  // ---------------------------------------------------------------------------
  // Python's str.split(sep) and str.split()
  // ---------------------------------------------------------------------------

  /** Python's `s.split(sep)` for a one-character separator: every occurrence splits. */
  function Split(s: string, sep: char): (parts: seq<string>)
    ensures |parts| == Count(s, sep) + 1
    ensures forall k :: 0 <= k < |parts| ==> sep !in parts[k]
  {
    if s == [] then [[]]
    else
      var init := Split(s[..|s| - 1], sep);
      if s[|s| - 1] == sep then init + [[]]
      else init[..|init| - 1] + [init[|init| - 1] + [s[|s| - 1]]]
  }

  /** Python's `sep.join(parts)`. */
  function Join(parts: seq<string>, sep: char): string
    requires parts != []
  {
    if |parts| == 1 then parts[0] else Join(parts[..|parts| - 1], sep) + [sep] + parts[|parts| - 1]
  }

  /** Appending a separator opens a new, empty part. */
  lemma SplitSnocSep(s: string, sep: char)
    ensures Split(s + [sep], sep) == Split(s, sep) + [[]]
  {
    assert (s + [sep])[..|s|] == s;
  }

  /** Appending another character extends the last part. */
  lemma SplitSnocOther(s: string, c: char, sep: char)
    requires c != sep
    ensures var init := Split(s, sep);
            Split(s + [c], sep) == init[..|init| - 1] + [init[|init| - 1] + [c]]
  {
    assert (s + [c])[..|s|] == s;
  }

  /** Joining one more part. */
  lemma JoinSnoc(parts: seq<string>, p: string, sep: char)
    requires parts != []
    ensures Join(parts + [p], sep) == Join(parts, sep) + [sep] + p
  {
    assert (parts + [p])[..|parts|] == parts;
  }

  /** Extending the last part extends the joined string. */
  lemma {:induction false} JoinExtendLast(parts: seq<string>, c: char, sep: char)
    requires parts != []
    ensures Join(parts[..|parts| - 1] + [parts[|parts| - 1] + [c]], sep) == Join(parts, sep) + [c]
  {
    var n := |parts|;
    var init, last := parts[..n - 1], parts[n - 1];
    if n == 1 {
      assert init + [last + [c]] == [last + [c]];
    } else {
      JoinSnoc(init, last + [c], sep);
      JoinSnoc(init, last, sep);
      assert init + [last] == parts;
    }
  }

  /** Splitting and joining again gives back the original string. */
  lemma {:induction false} JoinSplit(s: string, sep: char)
    ensures Join(Split(s, sep), sep) == s
    decreases |s|
  {
    if s != [] {
      var s', c := s[..|s| - 1], s[|s| - 1];
      assert s == s' + [c];
      JoinSplit(s', sep);
      if c == sep {
        SplitSnocSep(s', sep);
        JoinSnoc(Split(s', sep), [], sep);
      } else {
        SplitSnocOther(s', c, sep);
        JoinExtendLast(Split(s', sep), c, sep);
      }
    }
  }

  /** Appending characters other than the separator extends the last part. */
  lemma {:induction false} SplitAppendOther(s: string, t: string, sep: char)
    requires sep !in t
    ensures var init := Split(s, sep);
            Split(s + t, sep) == init[..|init| - 1] + [init[|init| - 1] + t]
    decreases |t|
  {
    var init := Split(s, sep);
    var n := |init|;
    var front, last := init[..n - 1], init[n - 1];
    if t == [] {
      assert s + t == s;
      assert last + t == last;
      SnocLast(init);
    } else {
      var t', c := t[..|t| - 1], t[|t| - 1];
      assert s + t == (s + t') + [c];
      SplitAppendOther(s, t', sep);
      var mid := Split(s + t', sep);
      assert mid == front + [last + t'];
      assert |mid| == n;
      assert mid[..n - 1] == front;
      assert mid[n - 1] == last + t';
      SplitSnocOther(s + t', c, sep);
      assert (last + t') + [c] == last + t;
    }
  }

  /** Splitting joined parts that hold no separator gives the parts back. */
  lemma {:induction false} SplitJoin(parts: seq<string>, sep: char)
    requires parts != [] && forall k :: 0 <= k < |parts| ==> sep !in parts[k]
    ensures Split(Join(parts, sep), sep) == parts
    decreases |parts|
  {
    var n := |parts|;
    if n == 1 {
      var p := parts[0];
      assert Split([], sep) == [[]];
      SplitAppendOther([], p, sep);
      assert [] + p == p;
      assert [[]][..0] + [[] + p] == parts;
    } else {
      var init, p := parts[..n - 1], parts[n - 1];
      var j := Join(init, sep);
      assert Join(parts, sep) == j + [sep] + p;
      SplitJoin(init, sep);
      SplitSnocSep(j, sep);
      var widened := init + [[]];
      assert Split(j + [sep], sep) == widened;
      SplitAppendOther(j + [sep], p, sep);
      assert widened[..|widened| - 1] == init;
      assert widened[|widened| - 1] + p == p;
      SnocLast(parts);
    }
  }

  /** The k-th inclusive range of code points above ASCII that `str.isspace()` holds for. */
  function UnicodeSpaceRange(k: nat): (int, int)
    requires k < 8
  {
    match k
    case 0 => (0x85, 0x85)
    case 1 => (0xA0, 0xA0)
    case 2 => (0x1680, 0x1680)
    case 3 => (0x2000, 0x200A)
    case 4 => (0x2028, 0x2029)
    case 5 => (0x202F, 0x202F)
    case 6 => (0x205F, 0x205F)
    case _ => (0x3000, 0x3000)
  }

  /** Does one of the ranges from the k-th on hold n? */
  predicate UnicodeSpaceFrom(n: int, k: nat)
    decreases 8 - k
  {
    k < 8 && (UnicodeSpaceRange(k).0 <= n <= UnicodeSpaceRange(k).1 || UnicodeSpaceFrom(n, k + 1))
  }

  /** The code points above ASCII that `str.isspace()` holds for. */
  predicate UnicodeSpace(n: int)
  {
    n >= 0x85 && UnicodeSpaceFrom(n, 0)
  }

  /**
   * The whitespace `int` strips from both ends of its argument: tab, line feed, vertical tab,
   * form feed, carriage return, the space, and the Unicode spaces and separators above ASCII.
   */
  predicate IntSpace(c: char)
  {
    c == ' ' || c == '\t' || c == '\n' || c == '\r' || c == 11 as char || c == 12 as char
    || UnicodeSpace(c as int)
  }

  /**
   * The characters `str.isspace()` holds for, which `str.split()` separates on: what `int`
   * strips, and the ASCII separators 0x1C..0x1F, which `int` refuses.
   */
  predicate IsSpace(c: char)
  {
    IntSpace(c) || c == 28 as char || c == 29 as char || c == 30 as char || c == 31 as char
  }

  /** Python's `s.split()`: the maximal runs of non-whitespace characters, in order. */
  function Words(s: string): (ws: seq<string>)
    ensures forall k :: 0 <= k < |ws| ==> ws[k] != [] && forall j :: 0 <= j < |ws[k]| ==> !IsSpace(ws[k][j])
  {
    if s == [] then []
    else
      var init := Words(s[..|s| - 1]);
      var c := s[|s| - 1];
      if IsSpace(c) then init
      else if |s| >= 2 && !IsSpace(s[|s| - 2]) && init != [] then init[..|init| - 1] + [init[|init| - 1] + [c]]
      else init + [[c]]
  }

  /** `str.split()` also separates on the ASCII separator 0x1C and on the no-break space 0xA0. */
  lemma WordsSeparatorExample()
    ensures Words(['1', 28 as char, '2']) == ["1", "2"]
    ensures Words(['1', 0xA0 as char, '2']) == ["1", "2"]
  {
    assert Words("1") == ["1"] by {
      assert "1"[..0] == [];
    }
    var s := ['1', 28 as char, '2'];
    assert s[..2][..1] == "1";
    assert Words(s[..2]) == ["1"];
    assert Words(s) == ["1", "2"];
    var u := ['1', 0xA0 as char, '2'];
    assert u[..2][..1] == "1";
    assert Words(u[..2]) == ["1"];
    assert Words(u) == ["1", "2"];
  }

  /** Python's `line.split()[-1]`, which raises on a blank line. */
  function LastWord(s: string): Result<string>
  {
    var ws := Words(s);
    if ws == [] then Err("IndexError: list index out of range") else Ok(ws[|ws| - 1])
  }

  // ---------------------------------------------------------------------------
  // Decimal numbers: int(s) and str(n)
  // ---------------------------------------------------------------------------

  predicate IsDigit(c: char)
  {
    '0' <= c <= '9'
  }

  predicate AllDigits(s: string)
  {
    forall k :: 0 <= k < |s| ==> IsDigit(s[k])
  }

  function DigitValue(c: char): nat
    requires IsDigit(c)
  {
    c as int - '0' as int
  }

  function DigitChar(d: nat): char
    requires d < 10
  {
    ('0' as int + d) as char
  }

  /** The value of a string of decimal digits, most significant first. */
  function DecimalValue(s: string): nat
    requires AllDigits(s)
  {
    if s == [] then 0 else DecimalValue(s[..|s| - 1]) * 10 + DigitValue(s[|s| - 1])
  }

  /** Python's `int(s)` on an unsigned decimal string. */
  function ParseNat(s: string): (r: Option<nat>)
    ensures r.Some? <==> s != [] && AllDigits(s)
  {
    if s != [] && AllDigits(s) then Some(DecimalValue(s)) else None
  }

  /**
   * The value of the digits `int` accepts after the sign: decimal digits, where a single
   * underscore may stand between two of them; `None` for anything else.
   */
  function NumeralValue(s: string): (r: Option<nat>)
    ensures s != [] && AllDigits(s) ==> r == Some(DecimalValue(s))
    decreases |s|
  {
    if s == [] || !IsDigit(s[|s| - 1]) then None
    else
      var init, d := s[..|s| - 1], DigitValue(s[|s| - 1]);
      if init == [] then Some(d)
      else if init[|init| - 1] == '_' then
        match NumeralValue(init[..|init| - 1])
        case Some(n) => Some(n * 10 + d)
        case None => None
      else
        match NumeralValue(init)
        case Some(n) => Some(n * 10 + d)
        case None => None
  }

  /** An optional sign and then a numeral, as `int` reads them once the whitespace is gone. */
  function SignedNumeral(t: string): (r: Option<int>)
    ensures t != [] && AllDigits(t) ==> r == Some(DecimalValue(t))
  {
    if t != [] && (t[0] == '-' || t[0] == '+') then
      match NumeralValue(t[1..])
      case Some(n) =>
        var v: int := if t[0] == '-' then 0 - n as int else n;
        Some(v)
      case None => None
    else
      match NumeralValue(t)
      case Some(n) => Some(n)
      case None => None
  }

  /**
   * Python's `int(s)` in base 10: whitespace is stripped from both ends, then an optional
   * sign and a numeral follow.
   */
  function ParseInt(s: string): (r: Option<int>)
    ensures s != [] && AllDigits(s) ==> r == Some(DecimalValue(s))
    decreases |s|
  {
    if s != [] && IntSpace(s[0]) then ParseInt(s[1..])
    else if s != [] && IntSpace(s[|s| - 1]) then ParseInt(s[..|s| - 1])
    else SignedNumeral(s)
  }

  /** Without whitespace at either end, `int` reads the sign and numeral directly. */
  lemma ParseUnpadded(t: string)
    requires t != [] && !IntSpace(t[0]) && !IntSpace(t[|t| - 1])
    ensures ParseInt(t) == SignedNumeral(t)
  {
  }

  /** `int` reads a minus sign followed by a numeral as the negated value of the numeral. */
  lemma ParseNegative(s: string, n: nat)
    requires NumeralValue(s) == Some(n)
    ensures ParseInt("-" + s) == Some(-(n as int))
  {
    var t := "-" + s;
    assert t[0] == '-' && t[|t| - 1] == s[|s| - 1] && IsDigit(s[|s| - 1]);
    ParseUnpadded(t);
    assert SignedNumeral(t) == Some(-(n as int)) by {
      assert t[1..] == s;
    }
  }

  /** `int` reads a numeral with whitespace around it, as in the picks line `7, 4`. */
  lemma ParsePaddedExample()
    ensures ParseInt(" 4") == Some(4)
  {
    assert " 4"[1..] == "4";
    assert NumeralValue("4") == Some(4) by {
      assert "4"[..0] == [];
    }
  }

  /** `int` reads a signed numeral with an underscore between two digits. */
  lemma ParseUnderscoreExample()
    ensures ParseInt("-1_0") == Some(-10)
  {
    assert "-1_0"[1..] == "1_0";
    assert NumeralValue("1_0") == Some(10) by {
      assert "1_0"[..2] == "1_" && "1_"[..1] == "1" && "1"[..0] == [];
    }
  }

  /** `int` rejects a doubled underscore and a leading one. */
  lemma ParseRejectExamples()
    ensures ParseInt("1__0") == None && ParseInt("_1") == None
  {
    assert NumeralValue("1__0") == None by {
      assert "1__0"[..3] == "1__" && "1__"[..2] == "1_";
    }
    assert NumeralValue("_1") == None by {
      assert "_1"[..1] == "_" && "_"[..0] == [];
    }
  }

  /** `int` rejects a space between the sign and the digits. */
  lemma ParseRejectSpacedSign()
    ensures ParseInt("- 1") == None
  {
    assert "- 1"[1..] == " 1";
    assert NumeralValue(" 1") == None by {
      assert " 1"[..1] == " ";
    }
  }

  /** Python's `str(n)` for a natural number. */
  function ShowNat(n: nat): (s: string)
    ensures s != [] && AllDigits(s)
  {
    if n < 10 then [DigitChar(n)] else ShowNat(n / 10) + [DigitChar(n % 10)]
  }

  /** `int(str(n)) == n`. */
  lemma {:induction false} ParseShowNat(n: nat)
    ensures ParseNat(ShowNat(n)) == Some(n)
    ensures DecimalValue(ShowNat(n)) == n
  {
    var s := ShowNat(n);
    if n >= 10 {
      assert s[..|s| - 1] == ShowNat(n / 10);
      ParseShowNat(n / 10);
    } else {
      assert s[..|s| - 1] == [];
      assert DigitValue(s[0]) == n;
    }
    assert DecimalValue(s) == n;
  }

  /** Parsing a list of strings, failing on the first that is not an integer. */
  function ParseInts(ss: seq<string>): (r: Result<seq<int>>)
    ensures r.Ok? ==> |r.value| == |ss| && forall k :: 0 <= k < |ss| ==> ParseInt(ss[k]) == Some(r.value[k])
  {
    if ss == [] then Ok([])
    else
      match ParseInts(ss[..|ss| - 1])
      case Err(e) => Err(e)
      case Ok(init) =>
        match ParseInt(ss[|ss| - 1])
        case None => Err("ValueError: invalid literal for int()")
        case Some(v) => Ok(init + [v])
  }

  /** Parsing the list fails exactly when one of the strings is not an integer. */
  lemma {:induction false} ParseIntsFails(ss: seq<string>)
    ensures ParseInts(ss).Err? <==> exists k :: 0 <= k < |ss| && ParseInt(ss[k]).None?
  {
    if ss != [] {
      var init := ss[..|ss| - 1];
      ParseIntsFails(init);
      if ParseInts(init).Err? {
        var k :| 0 <= k < |init| && ParseInt(init[k]).None?;
        assert ss[k] == init[k];
      } else if ParseInt(ss[|ss| - 1]).Some? {
        forall k | 0 <= k < |ss|
          ensures ParseInt(ss[k]).Some?
        {
          if k < |init| {
            assert ss[k] == init[k];
          }
        }
      }
    }
  }

  /** Python's `s.pop()` on a one-element set: its sole member. */
  function TheOne<T>(s: set<T>): (x: T)
    requires |s| == 1
    ensures s == {x}
  {
    var x :| x in s;
    assert |s - {x}| == 0;
    x
  }

  // ---------------------------------------------------------------------------
  // Bit strings and their values
  // ---------------------------------------------------------------------------

  predicate IsBinary(s: string)
  {
    forall k :: 0 <= k < |s| ==> s[k] == '0' || s[k] == '1'
  }

  /** Every character from index i on is '0' or '1', checked one index at a time. */
  predicate BinaryFrom(s: string, i: nat)
    decreases |s| - i
  {
    i >= |s| || ((s[i] == '0' || s[i] == '1') && BinaryFrom(s, i + 1))
  }

  lemma {:induction false} BinaryFromIsBinary(s: string, i: nat)
    requires BinaryFrom(s, i)
    ensures forall k :: i <= k < |s| ==> s[k] == '0' || s[k] == '1'
    decreases |s| - i
  {
    if i < |s| {
      BinaryFromIsBinary(s, i + 1);
    }
  }

  function Pow2(n: nat): nat
  {
    if n == 0 then 1 else 2 * Pow2(n - 1)
  }

  /** The unsigned big-endian value of a string of '0'/'1' characters. */
  function BinaryValue(s: string): nat
  {
    if s == [] then 0 else 2 * BinaryValue(s[..|s| - 1]) + (if s[|s| - 1] == '1' then 1 else 0)
  }

  /** A string of '0's is worth 0. */
  lemma {:induction false} ZerosValue(s: string)
    requires forall i :: 0 <= i < |s| ==> s[i] == '0'
    ensures BinaryValue(s) == 0
    decreases |s|
  {
    if s != [] {
      ZerosValue(s[..|s| - 1]);
    }
  }

  /** n bits hold a value below 2^n. */
  lemma {:induction false} BinaryValueBound(s: string)
    ensures BinaryValue(s) < Pow2(|s|)
    decreases |s|
  {
    if s != [] {
      BinaryValueBound(s[..|s| - 1]);
    }
  }

  /**
   * A field of bits read as an unsigned number: `int(b, 2)` on a string cut from a stream of
   * '0'/'1' characters. It raises on an empty field; ParseBinaryAgrees shows that it reads
   * every bit string as `int(b, 2)` does.
   */
  function ParseBinary(s: string): (r: Result<nat>)
    ensures r.Ok? <==> s != [] && IsBinary(s)
    ensures r.Ok? ==> r.value < Pow2(|s|)
  {
    if s != [] && IsBinary(s) then
      BinaryValueBound(s);
      Ok(BinaryValue(s))
    else Err("ValueError: invalid literal for int() with base 2")
  }

  /**
   * The value of the digits `int(s, 2)` accepts after the sign and prefix: '0'/'1' characters,
   * where a single underscore may stand between two of them; `None` for anything else.
   */
  function BinaryNumeral(s: string): (r: Option<nat>)
    ensures s != [] && IsBinary(s) ==> r == Some(BinaryValue(s))
    decreases |s|
  {
    if s == [] || (s[|s| - 1] != '0' && s[|s| - 1] != '1') then None
    else
      var init, b := s[..|s| - 1], if s[|s| - 1] == '1' then 1 else 0;
      if init == [] then Some(b)
      else if init[|init| - 1] == '_' then
        match BinaryNumeral(init[..|init| - 1])
        case Some(n) => Some(2 * n + b)
        case None => None
      else
        match BinaryNumeral(init)
        case Some(n) => Some(2 * n + b)
        case None => None
  }

  /** An optional `0b`/`0B` prefix, which one underscore may follow, and then a binary numeral. */
  function PrefixedBinary(u: string): (r: Option<nat>)
    ensures u != [] && IsBinary(u) ==> r == Some(BinaryValue(u))
  {
    if |u| >= 2 && u[0] == '0' && (u[1] == 'b' || u[1] == 'B') then
      var w := u[2..];
      if w != [] && w[0] == '_' then BinaryNumeral(w[1..]) else BinaryNumeral(w)
    else BinaryNumeral(u)
  }

  /** An optional sign and then a prefixed binary numeral, as `int(s, 2)` reads them once the whitespace is gone. */
  function SignedBinary(t: string): (r: Option<int>)
    ensures t != [] && IsBinary(t) ==> r == Some(BinaryValue(t))
  {
    if t != [] && (t[0] == '-' || t[0] == '+') then
      match PrefixedBinary(t[1..])
      case Some(n) =>
        var v: int := if t[0] == '-' then 0 - n as int else n;
        Some(v)
      case None => None
    else
      match PrefixedBinary(t)
      case Some(n) => Some(n)
      case None => None
  }

  /**
   * Python's `int(s, 2)`: whitespace is stripped from both ends, then an optional sign, an
   * optional `0b` prefix and a binary numeral follow; anything else raises ValueError.
   */
  function ParseIntBase2(s: string): (r: Result<int>)
    ensures s != [] && IsBinary(s) ==> r == Ok(BinaryValue(s))
    decreases |s|
  {
    if s != [] && IntSpace(s[0]) then ParseIntBase2(s[1..])
    else if s != [] && IntSpace(s[|s| - 1]) then ParseIntBase2(s[..|s| - 1])
    else
      match SignedBinary(s)
      case Some(v) => Ok(v)
      case None => Err("ValueError: invalid literal for int() with base 2")
  }

  /** On every string, the bit-field reader and `int(s, 2)` succeed together on bit strings and agree on the value. */
  lemma ParseBinaryAgrees(s: string)
    ensures ParseBinary(s).Ok? ==> ParseIntBase2(s) == Ok(ParseBinary(s).value as int)
    ensures s == [] ==> ParseBinary(s).Err? && ParseIntBase2(s).Err?
  {
    if s == [] {
      assert BinaryNumeral(s) == None;
    }
  }

  /** `int(s, 2)` reads single underscores between bits and a `0b` prefix, and leading zeros. */
  lemma ParseBase2Examples()
    ensures ParseIntBase2("1_1") == Ok(3)
    ensures ParseIntBase2("0b1") == Ok(1)
    ensures ParseIntBase2("000") == Ok(0)
  {
    assert BinaryNumeral("000") == Some(0) by {
      assert "000"[..2] == "00" && "00"[..1] == "0" && "0"[..0] == [];
    }
    assert BinaryNumeral("1_1") == Some(3) by {
      assert "1_1"[..2] == "1_" && "1_"[..1] == "1" && "1"[..0] == [];
    }
    assert PrefixedBinary("0b1") == Some(1) by {
      assert "0b1"[2..] == "1" && "1"[..0] == [];
    }
  }

  /** `int(s, 2)` reads a padded, signed, prefixed numeral with an underscore after the prefix. */
  lemma ParseBase2SignedExample()
    ensures ParseIntBase2(" -0B_10 ") == Ok(-2)
  {
    var t := " -0B_10 ";
    assert t[1..] == "-0B_10 " && "-0B_10 "[..6] == "-0B_10";
    assert PrefixedBinary("0B_10") == Some(2) by {
      assert "0B_10"[2..] == "_10" && "_10"[1..] == "10";
      assert "10"[..1] == "1" && "1"[..0] == [];
    }
    assert "-0B_10"[1..] == "0B_10";
  }

  /** `int(s, 2)` rejects a bare prefix, a doubled underscore and a digit above 1. */
  lemma ParseBase2Rejects()
    ensures ParseIntBase2("0b").Err? && ParseIntBase2("1__1").Err? && ParseIntBase2("2").Err?
  {
    assert BinaryNumeral("0b"[2..]) == None by {
      assert "0b"[2..] == [];
    }
    assert BinaryNumeral("1__1") == None by {
      assert "1__1"[..3] == "1__" && "1__"[..2] == "1_";
    }
  }
}
