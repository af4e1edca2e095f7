/** Period and category identification from a file path: the period is the
    file name's stem parsed as "%B_%Y" (a locale month name, an underscore, a
    four-digit year), the category is the second-to-last segment of the
    file's directory. */
module Periods {
  import opened Errors

  /** The datetime `strptime` returns for "%B_%Y": day 1 of a month of a year. */
  datatype Period = Period(year: int, month: int)

  /** Chronological strict order of periods (datetimes on day 1). */
  predicate PeriodLt(a: Period, b: Period)
  {
    a.year < b.year || (a.year == b.year && a.month < b.month)
  }

  /** A locale's full month names, January first, none of them empty. */
  predicate ValidMonthTable(months: seq<string>)
  {
    |months| == 12 && forall k | 0 <= k < 12 :: |months[k]| > 0
  }

  /** No two month names of the table are equal once case is ignored. */
  predicate DistinctMonthNames(months: seq<string>)
  {
    forall a, b | 0 <= a < b < |months| :: Lower(months[a]) != Lower(months[b])
  }

  /** The month names of the C and English locales. */
  const EnglishMonths: seq<string> := ["January", "February", "March", "April", "May", "June", "July",
                                       "August", "September", "October", "November", "December"]

  function LowerChar(c: char): char
  {
    if 'A' <= c <= 'Z' then (c as int + 32) as char else c
  }

  /** Case folding of the letters A to Z. */
  function Lower(s: string): (l: string)
    ensures |l| == |s|
  {
    seq(|s|, t requires 0 <= t < |s| => LowerChar(s[t]))
  }

  predicate IsDigit(c: char) { '0' <= c <= '9' }

  /** The decimal value of a string of digits. */
  function DigitsValue(s: string): nat
    requires forall t | 0 <= t < |s| :: IsDigit(s[t])
  {
    if s == [] then 0
    else
      assert IsDigit(s[|s| - 1]);
      DigitsValue(s[..|s| - 1]) * 10 + (s[|s| - 1] as int - '0' as int)
  }

  /** The first month, from index k on, whose name equals `name` ignoring case. */
  function FindMonth(name: string, months: seq<string>, k: nat): (r: Option<nat>)
    requires k <= |months|
    ensures r.Some? ==> k <= r.value < |months| && Lower(months[r.value]) == Lower(name)
    ensures r.Some? ==> forall t | k <= t < r.value :: Lower(months[t]) != Lower(name)
    ensures r.None? ==> forall t | k <= t < |months| :: Lower(months[t]) != Lower(name)
    decreases |months| - k
  {
    if k == |months| then None
    else if Lower(months[k]) == Lower(name) then Some(k)
    else FindMonth(name, months, k + 1)
  }

  /** `datetime.strptime(fname, "%B_%Y")`: the whole name must be a month name
      (any case), an underscore and four digits naming a year from 1 on. */
  function GetFnameDate(fname: string, months: seq<string>): (r: Result<Period>)
    requires ValidMonthTable(months)
    ensures r.Err? ==> r.error == ParseError
    ensures r.Ok? ==> 1 <= r.value.month <= 12 && 1 <= r.value.year <= 9999
  {
    if |fname| < 5 then Err(ParseError)
    else
      var n := |fname|;
      var name, digits := fname[..n - 5], fname[n - 4..];
      if fname[n - 5] != '_' || !(forall t | 0 <= t < 4 :: IsDigit(digits[t])) then Err(ParseError)
      else
        match FindMonth(name, months, 0)
        case None => Err(ParseError)
        case Some(k) =>
          var year := DigitsValue(digits);
          assert year <= 9999 by {
            DigitsBound(digits);
            assert Pow10(4) == 10000;
          }
          if year == 0 then Err(ParseError) else Ok(Period(year, k + 1))
  }

  /** A string of digits has a value below 10 to the power of its length. */
  lemma {:induction false} DigitsBound(s: string)
    requires forall t | 0 <= t < |s| :: IsDigit(s[t])
    ensures DigitsValue(s) < Pow10(|s|)
  {
    if s != [] {
      DigitsBound(s[..|s| - 1]);
    }
  }

  function Pow10(n: nat): nat
  {
    if n == 0 then 1 else 10 * Pow10(n - 1)
  }

  function Digit(v: nat): char
    requires v < 10
  {
    ('0' as int + v) as char
  }

  /** The year as four decimal digits with leading zeros. */
  function FourDigits(year: nat): string
    requires year <= 9999
  {
    var r1 := year % 1000;
    var r2 := r1 % 100;
    [Digit(year / 1000), Digit(r1 / 100), Digit(r2 / 10), Digit(r2 % 10)]
  }

  /** The file name stem of a period, "<MonthName>_<YYYY>". */
  function FormatFname(p: Period, months: seq<string>): string
    requires ValidMonthTable(months) && 1 <= p.month <= 12 && 0 <= p.year <= 9999
  {
    months[p.month - 1] + "_" + FourDigits(p.year)
  }

  lemma FourDigitsValue(year: nat)
    requires year <= 9999
    ensures forall t | 0 <= t < 4 :: IsDigit(FourDigits(year)[t])
    ensures DigitsValue(FourDigits(year)) == year
  {
    var s := FourDigits(year);
    var r1 := year % 1000;
    var r2 := r1 % 100;
    assert s[..1][..0] == [];
    assert DigitsValue(s[..1]) == year / 1000;
    assert s[..2][..1] == s[..1];
    assert DigitsValue(s[..2]) == (year / 1000) * 10 + r1 / 100;
    assert s[..3][..2] == s[..2];
    assert DigitsValue(s[..3]) == ((year / 1000) * 10 + r1 / 100) * 10 + r2 / 10;
    assert s[..4] == s;
  }

  /** Parsing the name of a period gives the period back. */
  lemma ParseFormatted(p: Period, months: seq<string>)
    requires ValidMonthTable(months) && DistinctMonthNames(months)
    requires 1 <= p.month <= 12 && 1 <= p.year <= 9999
    ensures GetFnameDate(FormatFname(p, months), months) == Ok(p)
  {
    var f := FormatFname(p, months);
    var name := months[p.month - 1];
    FourDigitsValue(p.year);
    assert f[..|f| - 5] == name;
    assert f[|f| - 4..] == FourDigits(p.year);
    assert f[|f| - 5] == '_';
    var found := FindMonth(name, months, 0);
    assert found == Some(p.month - 1);
  }

  /** Case folding works character by character, so it distributes over concatenation. */
  lemma LowerAppend(a: string, b: string)
    ensures Lower(a + b) == Lower(a) + Lower(b)
  {
    assert forall t | 0 <= t < |a + b| :: Lower(a + b)[t] == (Lower(a) + Lower(b))[t];
  }

  /** Four digits are the four-digit form of their own value. */
  lemma FourDigitsOfValue(digits: string)
    requires |digits| == 4 && forall t | 0 <= t < 4 :: IsDigit(digits[t])
    ensures DigitsValue(digits) <= 9999
    ensures FourDigits(DigitsValue(digits)) == digits
  {
    var d0, d1, d2, d3 := digits[0] as int - '0' as int, digits[1] as int - '0' as int,
                          digits[2] as int - '0' as int, digits[3] as int - '0' as int;
    assert digits[..1][..0] == [];
    assert DigitsValue(digits[..1]) == d0;
    assert digits[..2][..1] == digits[..1];
    assert DigitsValue(digits[..2]) == d0 * 10 + d1;
    assert digits[..3][..2] == digits[..2];
    assert DigitsValue(digits[..3]) == (d0 * 10 + d1) * 10 + d2;
    assert digits[..4] == digits;
    var year := DigitsValue(digits);
    assert year == 1000 * d0 + 100 * d1 + 10 * d2 + d3;
    var r1 := year % 1000;
    var r2 := r1 % 100;
    assert year / 1000 == d0 && r1 == 100 * d1 + 10 * d2 + d3;
    assert r1 / 100 == d1 && r2 == 10 * d2 + d3;
    assert r2 / 10 == d2 && r2 % 10 == d3;
  }

  /** Only names of the "%B_%Y" form parse: a successful parse of s to p means
      s is a month name (the first of the table that matches, in any case), an
      underscore and the four digits of p's year, so s is FormatFname(p) up to
      case. */
  lemma ParsedIsFormatted(s: string, months: seq<string>)
    requires ValidMonthTable(months) && GetFnameDate(s, months).Ok?
    ensures |s| >= 5
    ensures var p := GetFnameDate(s, months).value;
      var name := s[..|s| - 5];
      s == name + "_" + FourDigits(p.year) &&
      Lower(name) == Lower(months[p.month - 1]) &&
      (forall t | 0 <= t < p.month - 1 :: Lower(months[t]) != Lower(name)) &&
      Lower(s) == Lower(FormatFname(p, months))
  {
    var n := |s|;
    var p := GetFnameDate(s, months).value;
    var name, digits := s[..n - 5], s[n - 4..];
    FourDigitsOfValue(digits);
    assert s == name + "_" + digits;
    var rest := "_" + digits;
    LowerAppend(name, rest);
    LowerAppend(months[p.month - 1], rest);
    assert FormatFname(p, months) == months[p.month - 1] + rest;
  }

  /** "January_2020" is January 2020 in the English locale. */
  lemma EnglishExample()
    ensures GetFnameDate("January_2020", EnglishMonths) == Ok(Period(2020, 1))
  {
    var f := "January_2020";
    assert f[..|f| - 5] == "January";
    assert f[|f| - 4..] == "2020";
    assert DigitsValue("2020") == 2020 by {
      assert "2020"[..3] == "202" && "202"[..2] == "20" && "20"[..1] == "2" && "2"[..0] == "";
    }
    assert FindMonth("January", EnglishMonths, 0) == Some(0);
  }

  /** A name without the underscore before four digits is rejected, whatever the locale. */
  lemma MissingSeparatorFails(months: seq<string>)
    requires ValidMonthTable(months)
    ensures GetFnameDate("Jan2020", months) == Err(ParseError)
  {
    assert "Jan2020"[2] == 'n';
  }

  /** `str.rfind(c)`: the last index holding c, or -1. */
  function LastIndex(s: string, c: char): (r: int)
    ensures -1 <= r < |s|
    ensures r >= 0 ==> s[r] == c
    ensures forall t | r < t < |s| :: s[t] != c
  {
    if |s| == 0 then -1
    else if s[|s| - 1] == c then |s| - 1
    else LastIndex(s[..|s| - 1], c)
  }

  /** `str.find(c)`: the first index holding c, or -1. */
  function FirstIndex(s: string, c: char): (r: int)
    ensures -1 <= r < |s|
    ensures r >= 0 ==> s[r] == c
    ensures forall t | 0 <= t < |s| && (r < 0 || t < r) :: s[t] != c
  {
    if |s| == 0 then -1
    else if s[0] == c then 0
    else
      var r := FirstIndex(s[1..], c);
      if r < 0 then -1 else r + 1
  }

  /** `str.split(c)`: the fields between the occurrences of c, empty fields kept. */
  function Split(s: string, c: char): (parts: seq<string>)
    ensures |parts| >= 1
    decreases |s|
  {
    var i := FirstIndex(s, c);
    if i < 0 then [s] else [s[..i]] + Split(s[i + 1..], c)
  }

  /** `c.join(parts)`. */
  function Join(parts: seq<string>, c: char): string
    requires |parts| >= 1
  {
    if |parts| == 1 then parts[0] else parts[0] + [c] + Join(parts[1..], c)
  }

  /** Joining the fields of a split gives the string back, and no field holds the separator. */
  lemma {:induction false} SplitJoin(s: string, c: char)
    ensures Join(Split(s, c), c) == s
    ensures forall k | 0 <= k < |Split(s, c)| :: c !in Split(s, c)[k]
    decreases |s|
  {
    var i := FirstIndex(s, c);
    if i >= 0 {
      SplitJoin(s[i + 1..], c);
      assert s == s[..i] + [c] + s[i + 1..];
    }
  }

  /** Splitting a join of separator-free fields gives the fields back. */
  lemma {:induction false} JoinSplit(parts: seq<string>, c: char)
    requires |parts| >= 1 && forall k | 0 <= k < |parts| :: c !in parts[k]
    ensures Split(Join(parts, c), c) == parts
  {
    if |parts| == 1 {
      assert FirstIndex(parts[0], c) < 0;
    } else {
      JoinSplit(parts[1..], c);
      var j := Join(parts, c);
      assert j == parts[0] + [c] + Join(parts[1..], c);
      assert FirstIndex(j, c) == |parts[0]| by {
        FirstIndexAfter(parts[0], c, Join(parts[1..], c));
      }
      assert j[|parts[0]| + 1..] == Join(parts[1..], c);
      assert j[..|parts[0]|] == parts[0];
    }
  }

  /** In a + [c] + b with no c in a, the first c is the one after a. */
  lemma FirstIndexAfter(a: string, c: char, b: string)
    requires c !in a
    ensures FirstIndex(a + [c] + b, c) == |a|
  {
    var s := a + [c] + b;
    var r := FirstIndex(s, c);
    assert s[|a|] == c;
  }

  /** Appending to a string keeps the first separator it already holds. */
  lemma FirstIndexPrefix(a: string, c: char, b: string)
    requires FirstIndex(a, c) >= 0
    ensures FirstIndex(a + b, c) == FirstIndex(a, c)
  {
    var i := FirstIndex(a, c);
    assert (a + b)[i] == a[i];
  }

  /** Split peels off the field before the first separator. */
  lemma SplitAt(s: string, c: char)
    requires FirstIndex(s, c) >= 0
    ensures Split(s, c) == [s[..FirstIndex(s, c)]] + Split(s[FirstIndex(s, c) + 1..], c)
  {
  }

  /** A separator-free field followed by a separator splits off as one field. */
  lemma SplitAfterField(a: string, c: char, b: string)
    requires FirstIndex(a, c) < 0
    ensures Split(a + [c] + b, c) == [a] + Split(b, c)
    ensures Split(a, c) == [a]
  {
    var s := a + [c] + b;
    FirstIndexAfter(a, c, b);
    assert s[..|a|] == a && s[|a| + 1..] == b;
  }

  /** When a holds a separator, a + [c] + b and a lose the same first field. */
  lemma SplitAppendStep(a: string, c: char, b: string)
    requires FirstIndex(a, c) >= 0
    ensures var i := FirstIndex(a, c);
      Split(a + [c] + b, c) == [a[..i]] + Split(a[i + 1..] + [c] + b, c)
      && Split(a, c) == [a[..i]] + Split(a[i + 1..], c)
  {
    var s, i := a + [c] + b, FirstIndex(a, c);
    FirstIndexPrefix(a, c, [c] + b);
    assert s == a + ([c] + b);
    SplitAt(s, c);
    SplitAt(a, c);
    assert s[..i] == a[..i];
    assert s[i + 1..] == a[i + 1..] + [c] + b;
  }

  /** The append law for the rest of a after its first separator carries over to a. */
  lemma SplitAppendLift(a: string, c: char, b: string)
    requires FirstIndex(a, c) >= 0
    requires var a' := a[FirstIndex(a, c) + 1..];
      Split(a' + [c] + b, c) == Split(a', c) + Split(b, c)
    ensures Split(a + [c] + b, c) == Split(a, c) + Split(b, c)
  {
    var i := FirstIndex(a, c);
    var a' := a[i + 1..];
    SplitAppendStep(a, c, b);
    HeadAssoc([a[..i]], Split(a', c), Split(b, c), Split(a + [c] + b, c), Split(a, c), Split(a' + [c] + b, c));
  }

  /** l == h + r, m == h + x and r == x + y give l == m + y. */
  lemma HeadAssoc(h: seq<string>, x: seq<string>, y: seq<string>, l: seq<string>, m: seq<string>, r: seq<string>)
    requires l == h + r && m == h + x && r == x + y
    ensures l == m + y
  {
    assert h + (x + y) == (h + x) + y;
  }

  /** Splitting around one more separator appends the fields of both sides. */
  lemma {:induction false} SplitAppend(a: string, c: char, b: string)
    ensures Split(a + [c] + b, c) == Split(a, c) + Split(b, c)
    decreases |a|
  {
    var i := FirstIndex(a, c);
    if i < 0 {
      SplitAfterField(a, c, b);
    } else {
      SplitAppend(a[i + 1..], c, b);
      SplitAppendLift(a, c, b);
    }
  }

  /** `s.rstrip("/")`. */
  function RStripSlashes(s: string): (r: string)
    ensures r <= s
    ensures r == [] || r[|r| - 1] != '/'
    ensures forall t | |r| <= t < |s| :: s[t] == '/'
  {
    if |s| > 0 && s[|s| - 1] == '/' then RStripSlashes(s[..|s| - 1]) else s
  }

  /** `os.path.basename(p)`: what follows the last "/". */
  function Basename(p: string): (r: string)
    ensures |r| <= |p| && r == p[|p| - |r|..]
    ensures '/' !in r
    ensures |r| < |p| ==> p[|p| - |r| - 1] == '/'
  {
    p[LastIndex(p, '/') + 1..]
  }

  /** `os.path.dirname(p)`: what precedes the last "/", trailing slashes
      removed unless it is made of slashes only. */
  function Dirname(p: string): (r: string)
    ensures r <= p
    ensures r != [] <==> '/' in p
  {
    var head := p[..LastIndex(p, '/') + 1];
    if head != [] && exists t | 0 <= t < |head| :: head[t] != '/' then RStripSlashes(head) else head
  }

  /** `parse_date(x)`: the basename up to its first ".", parsed as "%B_%Y". */
  function ParseDate(p: string, months: seq<string>): (r: Result<Period>)
    requires ValidMonthTable(months)
    ensures r.Err? ==> r.error == ParseError
    ensures r.Ok? ==> 1 <= r.value.month <= 12 && 1 <= r.value.year <= 9999
  {
    GetFnameDate(Split(Basename(p), '.')[0], months)
  }

  /** `variable_name(x)`: `os.path.dirname(x).split("/")[-2]`. */
  function VariableName(p: string): (r: Result<string>)
    ensures r.Err? ==> r.error == PathIndexError
  {
    var parts := Split(Dirname(p), '/');
    if |parts| < 2 then Err(PathIndexError) else Ok(parts[|parts| - 2])
  }

  /** The category of ".../<category>/<sub>/<file>" is <category>. */
  lemma VariableNameOfLayout(root: string, category: string, sub: string, file: string)
    requires '/' !in category && '/' !in sub && '/' !in file && sub != []
    ensures VariableName(root + "/" + category + "/" + sub + "/" + file) == Ok(category)
  {
    var dir := root + "/" + category + "/" + sub;
    assert dir[|dir| - 1] == sub[|sub| - 1];
    DirnameOfLayout(dir, file);
    DirectoryFields(root, category, sub);
  }

  /** The directory of "<dir>/<file>" is <dir> when <dir> does not end in "/". */
  lemma DirnameOfLayout(dir: string, file: string)
    requires '/' !in file && dir != [] && dir[|dir| - 1] != '/'
    ensures Dirname(dir + "/" + file) == dir
  {
    var p := dir + "/" + file;
    assert p == dir + ['/'] + file;
    LastIndexAfter(dir, '/', file);
    var head := p[..|dir| + 1];
    assert head == dir + ['/'];
    assert head[|dir| - 1] == dir[|dir| - 1];
    assert head[..|head| - 1] == dir;
    assert RStripSlashes(head) == RStripSlashes(dir) == dir;
  }

  /** The last two fields of "<root>/<category>/<sub>" are <category> and <sub>. */
  lemma DirectoryFields(root: string, category: string, sub: string)
    requires '/' !in category && '/' !in sub
    ensures Split(root + "/" + category + "/" + sub, '/') == Split(root, '/') + [category] + [sub]
  {
    var mid := root + "/" + category;
    assert mid + "/" + sub == mid + ['/'] + sub;
    SplitAppend(mid, '/', sub);
    assert mid == root + ['/'] + category;
    SplitAppend(root, '/', category);
    FirstIndexNone(category, '/');
    FirstIndexNone(sub, '/');
  }

  lemma FirstIndexNone(s: string, c: char)
    requires c !in s
    ensures Split(s, c) == [s]
  {
  }

  /** In a + [c] + b with no c in b, the last c is the one after a. */
  lemma LastIndexAfter(a: string, c: char, b: string)
    requires c !in b
    ensures LastIndex(a + [c] + b, c) == |a|
  {
    var s := a + [c] + b;
    var r := LastIndex(s, c);
    assert s[|a|] == c;
  }

  /** The category can be read exactly when the directory holds a "/". */
  lemma VariableNameOutcome(p: string)
    ensures VariableName(p).Ok? <==> '/' in Dirname(p)
  {
    var d := Dirname(p);
    var i := FirstIndex(d, '/');
    if i >= 0 {
      assert d[i] in d;
    } else {
      assert '/' !in d;
    }
  }

  /** The period of "<dir>/<stem>.<ext>" is the period of its stem. */
  lemma ParseDateOfLayout(dir: string, stem: string, ext: string, months: seq<string>)
    requires ValidMonthTable(months)
    requires '/' !in stem && '.' !in stem && '/' !in ext
    ensures ParseDate(dir + "/" + stem + "." + ext, months) == GetFnameDate(stem, months)
  {
    var p := dir + "/" + stem + "." + ext;
    assert p == dir + ['/'] + (stem + "." + ext);
    assert '/' !in stem + "." + ext;
    LastIndexAfter(dir, '/', stem + "." + ext);
    assert Basename(p) == stem + ['.'] + ext;
    FirstIndexAfter(stem, '.', ext);
    assert (stem + ['.'] + ext)[..|stem|] == stem;
  }
}
