/**
 * The Python `str` operations that the aggregator relies on, over `string`
 * (a sequence of code points, as a Python 3 `str` is).
 */
module PyText {
  import opened Opt

  /** `c.isspace()` in Python 3: ASCII whitespace, the separator controls and the Unicode spaces. */
  predicate IsSpace(c: char) {
    var n := c as int;
    n == 0x20 || (0x09 <= n <= 0x0D) || (0x1C <= n <= 0x1F) || n == 0x85 || n == 0xA0
    || n == 0x1680 || (0x2000 <= n <= 0x200A) || n == 0x2028 || n == 0x2029
    || n == 0x202F || n == 0x205F || n == 0x3000
  }

  predicate AllSpace(s: string) {
    forall i | 0 <= i < |s| :: IsSpace(s[i])
  }

  /** `s.lstrip()`: the longest suffix of `s` that does not start with whitespace. */
  function LStrip(s: string): (r: string)
    ensures |r| <= |s| && r == s[|s| - |r|..]
    ensures forall i | 0 <= i < |s| - |r| :: IsSpace(s[i])
    ensures r != [] ==> !IsSpace(r[0])
    decreases |s|
  {
    if s != [] && IsSpace(s[0]) then LStrip(s[1..]) else s
  }

  /** `s.rstrip()`: the longest prefix of `s` that does not end with whitespace. */
  function RStrip(s: string): (r: string)
    ensures |r| <= |s| && r == s[..|r|]
    ensures forall i | |r| <= i < |s| :: IsSpace(s[i])
    ensures r != [] ==> !IsSpace(r[|r| - 1])
    decreases |s|
  {
    if s != [] && IsSpace(s[|s| - 1]) then RStrip(s[..|s| - 1]) else s
  }

  /** `s.strip()`. */
  function Strip(s: string): (r: string)
    ensures |r| <= |s|
    ensures r == [] || (!IsSpace(r[0]) && !IsSpace(r[|r| - 1]))
  {
    RStrip(LStrip(s))
  }

  /** Leading whitespace is exactly what `lstrip` removes. */
  lemma {:induction false} LStripLeading(lead: string, rest: string)
    requires AllSpace(lead)
    requires rest == [] || !IsSpace(rest[0])
    ensures LStrip(lead + rest) == rest
    decreases |lead|
  {
    if lead != [] {
      assert (lead + rest)[1..] == lead[1..] + rest;
      LStripLeading(lead[1..], rest);
    } else {
      assert lead + rest == rest;
    }
  }

  /** `rstrip` never cuts into a prefix whose last character is not whitespace. */
  lemma {:induction false} RStripKeepsPrefix(s: string, prefix: string)
    requires StartsWith(s, prefix) && prefix != [] && !IsSpace(prefix[|prefix| - 1])
    ensures StartsWith(RStrip(s), prefix)
    decreases |s|
  {
    if IsSpace(s[|s| - 1]) {
      var t := s[..|s| - 1];
      assert s[|prefix| - 1] == prefix[|prefix| - 1];
      assert t[..|prefix|] == s[..|prefix|];
      RStripKeepsPrefix(t, prefix);
    }
  }

  predicate StartsWith(s: string, prefix: string) {
    |prefix| <= |s| && s[..|prefix|] == prefix
  }

  predicate OccursAt(s: string, pat: string, k: int) {
    0 <= k && k + |pat| <= |s| && s[k..k + |pat|] == pat
  }

  /** Concatenation regroups freely. */
  lemma AppendAssoc<T>(a: seq<T>, b: seq<T>, c: seq<T>)
    ensures (a + b) + c == a + (b + c)
  {
  }

  /** An occurrence splits the string into what precedes it, the pattern, and what follows. */
  lemma OccursSplit(s: string, pat: string, k: int)
    requires OccursAt(s, pat, k)
    ensures s == s[..k] + pat + s[k + |pat|..]
  {
    assert s == s[..k] + s[k..k + |pat|] + s[k + |pat|..];
  }

  lemma OccursShift(s: string, pat: string)
    requires s != []
    ensures forall k | 1 <= k :: OccursAt(s, pat, k) <==> OccursAt(s[1..], pat, k - 1)
  {
    forall k | 1 <= k
      ensures OccursAt(s, pat, k) <==> OccursAt(s[1..], pat, k - 1)
    {
      if k + |pat| <= |s| {
        assert s[1..][k - 1..k - 1 + |pat|] == s[k..k + |pat|];
      }
    }
  }

  /** `s.find(pat)`: the first position at which `pat` occurs, if it occurs. */
  function Find(s: string, pat: string): (r: Option<nat>)
    ensures r.Some? ==> OccursAt(s, pat, r.value)
    ensures r.Some? ==> forall k | 0 <= k < r.value :: !OccursAt(s, pat, k)
    ensures r.None? ==> forall k :: !OccursAt(s, pat, k)
    decreases |s|
  {
    if |s| < |pat| then None
    else if s[..|pat|] == pat then Some(0)
    else
      OccursShift(s, pat);
      match Find(s[1..], pat)
      case None => None
      case Some(i) => Some(i + 1)
  }

  /** A character's first occurrence follows a prefix that lacks it. */
  lemma FindChar(prefix: string, c: char, rest: string)
    requires c !in prefix
    ensures Find(prefix + [c] + rest, [c]) == Some(|prefix|)
  {
    var s := prefix + [c] + rest;
    assert OccursAt(s, [c], |prefix|);
    var i := Find(s, [c]).value;
    assert s[i..i + 1] == [c];
    assert s[i] == c;
  }

  /** Text cut at the first occurrence of a character: the parts before and after it are determined. */
  lemma CutAtChar(a1: string, r1: string, a2: string, r2: string, c: char)
    requires c !in a1 && c !in a2 && a1 + [c] + r1 == a2 + [c] + r2
    ensures a1 == a2 && r1 == r2
  {
    var s := a1 + [c] + r1;
    FindChar(a1, c, r1);
    FindChar(a2, c, r2);
    assert a1 == s[..|a1|] && a2 == s[..|a2|];
    assert r1 == s[|a1| + 1..] && r2 == s[|a2| + 1..];
  }

  /** A pattern's first occurrence follows a prefix that lacks the pattern's first character. */
  lemma FindPattern(prefix: string, pat: string, rest: string)
    requires pat != [] && pat[0] !in prefix
    ensures Find(prefix + pat + rest, pat) == Some(|prefix|)
  {
    var s := prefix + pat + rest;
    assert s[|prefix|..|prefix| + |pat|] == pat;
    assert OccursAt(s, pat, |prefix|);
    var i := Find(s, pat).value;
    assert s[i..i + |pat|][0] == pat[0];
  }

  /** The text `split` puts between the first two occurrences of the separator. */
  lemma SplitSecond(prefix: string, sep: string, mid: string, rest: string)
    requires sep != [] && sep[0] !in prefix && sep[0] !in mid
    ensures |Split(prefix + sep + mid + sep + rest, sep)| >= 2
    ensures Split(prefix + sep + mid + sep + rest, sep)[1] == mid
  {
    var tail := mid + sep + rest;
    var s := prefix + sep + mid + sep + rest;
    assert s == prefix + sep + tail;
    FindPattern(prefix, sep, tail);
    assert s[|prefix| + |sep|..] == tail;
    FindPattern(mid, sep, rest);
    assert Split(tail, sep)[0] == tail[..|mid|] == mid;
  }

  /** The stripped text is the slice of the text that `lstrip` and then `rstrip` leave. */
  lemma StripSlice(s: string)
    ensures var off := |s| - |LStrip(s)|;
      off + |Strip(s)| <= |s| && Strip(s) == s[off..off + |Strip(s)|]
  {
    var l := LStrip(s);
    var off := |s| - |l|;
    var r := RStrip(l);
    SliceOfSlice(s, off, |r|);
  }

  /** A prefix of a suffix is a slice. */
  lemma SliceOfSlice<T>(s: seq<T>, off: nat, k: nat)
    requires off + k <= |s|
    ensures s[off..][..k] == s[off..off + k]
  {
  }

  /** A pattern the stripped text starts with occurs in the text itself. */
  lemma StrippedPrefixOccurs(s: string, pat: string)
    requires pat != [] && StartsWith(Strip(s), pat)
    ensures Find(s, pat).Some?
  {
    StripSlice(s);
    var off := |s| - |LStrip(s)|;
    assert s[off..off + |pat|] == Strip(s)[..|pat|];
    assert OccursAt(s, pat, off);
  }

  /** A character's last occurrence precedes a suffix that lacks it. */
  lemma {:induction false} RFindChar(prefix: string, c: char, suffix: string)
    requires c !in suffix
    ensures RFind(prefix + [c] + suffix, c) == Some(|prefix|)
    decreases |suffix|
  {
    var s := prefix + [c] + suffix;
    if suffix != [] {
      var shorter := suffix[..|suffix| - 1];
      assert s[|s| - 1] == suffix[|suffix| - 1];
      assert s[..|s| - 1] == prefix + [c] + shorter;
      RFindChar(prefix, c, shorter);
    }
  }

  /** Python's `s.split(sep)` for a non-empty separator. */
  function Split(s: string, sep: string): (parts: seq<string>)
    requires sep != []
    ensures |parts| >= 1
    ensures |parts| == 1 <==> Find(s, sep).None?
    decreases |s|
  {
    match Find(s, sep)
    case None => [s]
    case Some(i) => [s[..i]] + Split(s[i + |sep|..], sep)
  }

  /** Python's `sep.join(parts)`. */
  function Join(parts: seq<string>, sep: string): (r: string)
    decreases |parts|
  {
    if parts == [] then []
    else if |parts| == 1 then parts[0]
    else parts[0] + sep + Join(parts[1..], sep)
  }

  /** Joining the pieces of a split with the same separator gives back the string. */
  lemma {:induction false} SplitJoin(s: string, sep: string)
    requires sep != []
    ensures Join(Split(s, sep), sep) == s
    decreases |s|
  {
    var f := Find(s, sep);
    if f.Some? {
      var i := f.value;
      var rest := s[i + |sep|..];
      var ps := Split(rest, sep);
      assert Split(s, sep) == [s[..i]] + ps;
      SplitJoin(rest, sep);
      JoinCons(s[..i], ps, sep);
      OccursSplit(s, sep, i);
    }
  }

  lemma JoinCons(head: string, tail: seq<string>, sep: string)
    requires tail != []
    ensures Join([head] + tail, sep) == head + sep + Join(tail, sep)
  {
    assert ([head] + tail)[1..] == tail;
  }

  /** A join is its first part, then the separator and the join of the rest when there is a rest. */
  lemma JoinHead(xs: seq<string>, sep: string)
    requires xs != []
    ensures Join(xs, sep) == xs[0] + (if |xs| == 1 then "" else sep + Join(xs[1..], sep))
  {
    if |xs| > 1 {
      assert xs == [xs[0]] + xs[1..];
      JoinCons(xs[0], xs[1..], sep);
      AppendAssoc(xs[0], sep, Join(xs[1..], sep));
    } else {
      assert xs == [xs[0]];
    }
  }

  /** Cutting a join before part `k`: the parts before it and a separator, then the parts from it on. */
  lemma JoinAt(xs: seq<string>, k: nat, sep: string)
    requires k < |xs|
    ensures Join(xs, sep) == (if k == 0 then "" else Join(xs[..k], sep) + sep) + Join(xs[k..], sep)
  {
    if k > 0 {
      assert xs == xs[..k] + xs[k..];
      JoinAppend(xs[..k], xs[k..], sep);
    } else {
      assert xs[k..] == xs;
    }
  }

  /** Joining a concatenation joins each half and puts one separator between them. */
  lemma {:induction false} JoinAppend(a: seq<string>, b: seq<string>, sep: string)
    requires a != [] && b != []
    ensures Join(a + b, sep) == Join(a, sep) + sep + Join(b, sep)
    decreases |a|
  {
    assert (a + b)[0] == a[0];
    assert (a + b)[1..] == a[1..] + b;
    if |a| > 1 {
      JoinAppend(a[1..], b, sep);
      AppendAssoc(a[0] + sep, Join(a[1..], sep) + sep, Join(b, sep));
      AppendAssoc(a[0] + sep, Join(a[1..], sep), sep);
    } else {
      assert a[1..] + b == b;
    }
  }

  /** Python's `s.replace(pat, repl)` for a non-empty pattern: every non-overlapping occurrence, left to right. */
  function Replace(s: string, pat: string, repl: string): string
    requires pat != []
  {
    Join(Split(s, pat), repl)
  }

  /** A string in which the pattern does not occur is returned unchanged. */
  lemma ReplaceAbsent(s: string, pat: string, repl: string)
    requires pat != [] && Find(s, pat).None?
    ensures Replace(s, pat, repl) == s
  {
  }

  /** A leading occurrence of the pattern is replaced, and the rest is processed in turn. */
  lemma ReplaceAtStart(pat: string, rest: string, repl: string)
    requires pat != []
    ensures Replace(pat + rest, pat, repl) == repl + Replace(rest, pat, repl)
  {
    var s := pat + rest;
    assert s[..|pat|] == pat;
    assert Find(s, pat) == Some(0);
    assert s[|pat|..] == rest && s[..0] == [];
    var tail := Split(rest, pat);
    assert Split(s, pat) == [[]] + tail;
    JoinCons([], tail, repl);
    assert [] + repl == repl;
  }

  function UpperChar(c: char): char {
    if 'a' <= c <= 'z' then (c as int - 32) as char else c
  }

  /** `s.upper()` on the ASCII letters. */
  function Upper(s: string): (r: string)
    ensures |r| == |s|
  {
    seq(|s|, i requires 0 <= i < |s| => UpperChar(s[i]))
  }

  /** Where Python's slice `s[:n]` stops, for a sequence of length `len`. */
  function SliceStop(len: nat, n: int): (k: nat)
    ensures k <= len
    ensures 0 <= n ==> k == (if n < len then n else len)
    ensures n < 0 ==> k == (if len + n > 0 then len + n else 0)
  {
    if 0 <= n then (if n < len then n else len)
    else if len + n > 0 then len + n else 0
  }

  /** `s[:n]`: the first `n` elements; a negative `n` leaves off the last `-n`. */
  function Take<T>(s: seq<T>, n: int): (r: seq<T>)
    ensures |r| == SliceStop(|s|, n) && r == s[..|r|]
  {
    s[..SliceStop(|s|, n)]
  }

  /** `s.lstrip(c)` for a single character `c`: every leading `c` is removed. */
  function LStripChar(s: string, c: char): (r: string)
    ensures |r| <= |s| && r == s[|s| - |r|..]
    ensures forall i | 0 <= i < |s| - |r| :: s[i] == c
    ensures r != [] ==> r[0] != c
    decreases |s|
  {
    if s != [] && s[0] == c then LStripChar(s[1..], c) else s
  }

  /** `s.rfind(c)`: the last position of `c`, if any. */
  function RFind(s: string, c: char): (r: Option<nat>)
    ensures r.Some? ==> r.value < |s| && s[r.value] == c
    ensures r.Some? ==> forall k | r.value < k < |s| :: s[k] != c
    ensures r.None? ==> c !in s
    decreases |s|
  {
    if s == [] then None
    else if s[|s| - 1] == c then Some(|s| - 1)
    else RFind(s[..|s| - 1], c)
  }

  function DigitChar(d: nat): char
    requires d < 10
  {
    ('0' as int + d) as char
  }

  function DigitValue(c: char): Option<int> {
    if '0' <= c <= '9' then Some(c as int - '0' as int) else None
  }

  predicate IsDigits(s: string) {
    forall i | 0 <= i < |s| :: '0' <= s[i] <= '9'
  }

  /** `str(n)` for a natural number: its decimal digits, without leading zeros. */
  function NatToString(n: nat): (r: string)
    ensures r != [] && IsDigits(r)
    decreases n
  {
    if n < 10 then [DigitChar(n)] else NatToString(n / 10) + [DigitChar(n % 10)]
  }

  /** `str(n)` for an integer. */
  function IntToString(n: int): (r: string)
    ensures r != [] && forall i | 0 <= i < |r| :: r[i] == '-' || '0' <= r[i] <= '9'
  {
    if n < 0 then "-" + NatToString(-n) else NatToString(n)
  }

  /** `int(s)` restricted to plain decimal digits. */
  function ParseNat(s: string): Option<int>
    decreases |s|
  {
    if s == [] then None
    else match DigitValue(s[|s| - 1])
      case None => None
      case Some(d) =>
        if |s| == 1 then Some(d)
        else match ParseNat(s[..|s| - 1])
          case None => None
          case Some(v) => Some(10 * v + d)
  }

  /** `int(s)` for an optionally negative decimal numeral. */
  function ParseInt(s: string): Option<int> {
    if s != [] && s[0] == '-' then
      match ParseNat(s[1..])
      case None => None
      case Some(v) => Some(-v)
    else ParseNat(s)
  }

  lemma {:induction false} ParseNatRoundTrip(n: nat)
    ensures ParseNat(NatToString(n)) == Some(n)
    decreases n
  {
    if n >= 10 {
      var s := NatToString(n);
      ParseNatRoundTrip(n / 10);
      assert s[..|s| - 1] == NatToString(n / 10);
    }
  }

  lemma DigitsHead(d: string)
    requires d != [] && IsDigits(d)
    ensures d[0] != '-'
  {
    assert '0' <= d[0] <= '9';
  }

  /** Reading back `str(n)` gives `n`. */
  lemma {:induction false} ParseIntRoundTrip(n: int)
    ensures ParseInt(IntToString(n)) == Some(n)
  {
    if n < 0 {
      var d := NatToString(-n);
      var s := "-" + d;
      ParseNatRoundTrip(-n);
      assert IntToString(n) == s;
      assert s != [] && s[0] == '-' && s[1..] == d;
      assert ParseInt(s) == Some(-(-n));
    } else {
      var d := NatToString(n);
      ParseNatRoundTrip(n);
      assert IntToString(n) == d;
      DigitsHead(d);
      assert ParseInt(d) == ParseNat(d);
    }
  }
}
