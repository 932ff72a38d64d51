/**
 * The handful of Python `str` operations the scripts rely on, with the
 * semantics CPython gives them: `lower`, `startswith`, `find`/`rfind`,
 * slicing with clamped and negative bounds, `replace`, `os.path.join`,
 * `int()` on text and `str()` on a non-negative integer, and `split` on
 * a one-character separator.
 */
module Text {

  datatype Option<T> = None | Some(value: T)

  // ---------------------------------------------------------------------
  // Case and prefixes

  /** `str.lower` on one character; only ASCII letters change. */
  function LowerChar(c: char): char
  {
    if 'A' <= c <= 'Z' then (c as int + 32) as char else c
  }

  /** The upper-case partner of an ASCII lower-case letter; anything else is kept. */
  function UpperChar(c: char): char
  {
    if 'a' <= c <= 'z' then (c as int - 32) as char else c
  }

  /** A lower-case ASCII letter is what `str.lower` makes of itself and of its upper-case partner, and of nothing else. */
  lemma LowerCharIs(c: char, m: char)
    requires 'a' <= m <= 'z'
    ensures LowerChar(c) == m <==> c == m || c == UpperChar(m)
  {
  }

  /** `s.lower()`: every character lowered on its own. */
  function Lower(s: string): (r: string)
    ensures |r| == |s|
    ensures forall i :: 0 <= i < |s| ==> r[i] == LowerChar(s[i])
  {
    if s == [] then [] else [LowerChar(s[0])] + Lower(s[1..])
  }

  predicate StartsWith(s: string, prefix: string)
  {
    |prefix| <= |s| && s[..|prefix|] == prefix
  }

  predicate EndsWith(s: string, suffix: string)
  {
    |suffix| <= |s| && s[|s| - |suffix|..] == suffix
  }

  /** `pat` occurs in `s` starting at index `i`. */
  predicate OccursAt(s: string, pat: string, i: int)
  {
    0 <= i && i + |pat| <= |s| && s[i..i + |pat|] == pat
  }

  predicate Contains(s: string, pat: string)
  {
    exists i :: 0 <= i <= |s| && OccursAt(s, pat, i)
  }

  // ---------------------------------------------------------------------
  // Searching

  /** The last occurrence of `pat` starting at or before `i`, or -1. */
  function RFindFrom(s: string, pat: string, i: int): (r: int)
    requires i <= |s| - |pat|
    ensures r == -1 || 0 <= r <= i
    ensures r >= 0 ==> OccursAt(s, pat, r)
    ensures forall k :: r < k <= i ==> !OccursAt(s, pat, k)
    decreases i + 1
  {
    if i < 0 then -1
    else if OccursAt(s, pat, i) then i
    else RFindFrom(s, pat, i - 1)
  }

  /** `s.rfind(pat)`: the index of the last occurrence of `pat`, or -1. */
  function RFind(s: string, pat: string): (r: int)
    ensures r == -1 || 0 <= r <= |s| - |pat|
    ensures r == -1 <==> !Contains(s, pat)
    ensures r >= 0 ==> OccursAt(s, pat, r) && forall k :: r < k ==> !OccursAt(s, pat, k)
  {
    RFindFrom(s, pat, |s| - |pat|)
  }

  /** The first occurrence of `pat` starting at or after `i`, or -1. */
  function FindFrom(s: string, pat: string, i: nat): (r: int)
    ensures r == -1 || i <= r <= |s| - |pat|
    ensures r >= 0 ==> OccursAt(s, pat, r)
    ensures forall k :: i <= k && (r == -1 || k < r) ==> !OccursAt(s, pat, k)
    decreases |s| - i
  {
    if i + |pat| > |s| then -1
    else if OccursAt(s, pat, i) then i
    else FindFrom(s, pat, i + 1)
  }

  /** `s.find(pat)`: the index of the first occurrence of `pat`, or -1. */
  function Find(s: string, pat: string): (r: int)
    ensures r == -1 || 0 <= r <= |s| - |pat|
    ensures r == -1 <==> !Contains(s, pat)
    ensures r >= 0 ==> OccursAt(s, pat, r) && forall k :: 0 <= k < r ==> !OccursAt(s, pat, k)
  {
    FindFrom(s, pat, 0)
  }

  // ---------------------------------------------------------------------
  // Slicing

  /** A slice bound as Python normalises it: negative counts from the end, then clamp. */
  function SliceBound(i: int, n: nat): (b: nat)
    ensures b <= n
  {
    if i < 0 then (if i + n < 0 then 0 else i + n)
    else if i > n then n
    else i
  }

  /** `s[i:j]`, never out of range. */
  function Slice(s: string, i: int, j: int): (r: string)
    ensures |r| <= |s|
  {
    var lo, hi := SliceBound(i, |s|), SliceBound(j, |s|);
    if lo < hi then s[lo..hi] else []
  }

  // ---------------------------------------------------------------------
  // Replacement

  /** `s.replace(find, rep)` for a non-empty `find`: left to right, non-overlapping. */
  function ReplaceNonEmpty(s: string, find: string, rep: string): string
    requires find != []
    decreases |s|
  {
    if s == [] then []
    else if StartsWith(s, find) then rep + ReplaceNonEmpty(s[|find|..], find, rep)
    else [s[0]] + ReplaceNonEmpty(s[1..], find, rep)
  }

  /** `s.replace("", rep)`: `rep` before every character and once at the end. */
  function InterleaveAll(s: string, rep: string): string
  {
    if s == [] then rep else rep + [s[0]] + InterleaveAll(s[1..], rep)
  }

  /** Python's `str.replace(find, rep)` with no count. */
  function Replace(s: string, find: string, rep: string): string
  {
    if find == [] then InterleaveAll(s, rep) else ReplaceNonEmpty(s, find, rep)
  }

  /** Text in which the pattern does not occur is left as it is. */
  lemma {:induction false} ReplaceAbsent(s: string, find: string, rep: string)
    requires find != [] && !Contains(s, find)
    ensures Replace(s, find, rep) == s
    decreases |s|
  {
    if s != [] {
      assert !OccursAt(s, find, 0);
      forall k | true ensures !OccursAt(s[1..], find, k) {
        if OccursAt(s[1..], find, k) {
          assert s[1..][k..k + |find|] == s[k + 1..k + 1 + |find|];
          assert OccursAt(s, find, k + 1);
        }
      }
      ReplaceAbsent(s[1..], find, rep);
    }
  }

  /**
   * Rewriting a prefix: when `find` opens the text and never occurs in the
   * rest, `replace` swaps that prefix for `rep` and keeps the rest.
   */
  lemma RewriteLeadingPrefix(find: string, rep: string, rest: string)
    requires find != [] && !Contains(rest, find)
    ensures Replace(find + rest, find, rep) == rep + rest
  {
    var s := find + rest;
    assert StartsWith(s, find);
    assert s[|find|..] == rest;
    ReplaceAbsent(rest, find, rep);
  }

  /**
   * Where the copies go: the `i`-th character of `s` is preceded by a copy of
   * `rep`, characters and copies alternate, and one more copy closes the text.
   */
  lemma InterleavePositions(s: string, rep: string)
    ensures var r := Replace(s, [], rep); var w := |rep| + 1;
      && |r| == |s| * w + |rep|
      && (forall i :: 0 <= i < |s| ==> i * w + |rep| < |r| && r[i * w..i * w + |rep|] == rep && r[i * w + |rep|] == s[i])
      && r[|s| * w..] == rep
  {
    var r, w := InterleaveAll(s, rep), |rep| + 1;
    assert Replace(s, [], rep) == r;
    InterleaveEnd(s, rep);
    forall i | 0 <= i < |s| ensures i * w + |rep| < |r| && r[i * w..i * w + |rep|] == rep && r[i * w + |rep|] == s[i] {
      InterleaveAt(s, rep, i);
    }
  }

  /** The copy of `rep` before the `i`-th character, and the character itself. */
  predicate InterleaveSlot(s: string, rep: string, i: nat)
    requires i < |s|
  {
    var r := InterleaveAll(s, rep); var at := i * (|rep| + 1);
    at + |rep| < |r| && r[at..at + |rep|] == rep && r[at + |rep|] == s[i]
  }

  lemma {:induction false} InterleaveAt(s: string, rep: string, i: nat)
    requires i < |s|
    ensures InterleaveSlot(s, rep, i)
    decreases i
  {
    var w := |rep| + 1;
    var r := InterleaveAll(s, rep);
    var tail := s[1..];
    var t := InterleaveAll(tail, rep);
    assert r == rep + [s[0]] + t;
    if i > 0 {
      InterleaveAt(tail, rep, i - 1);
      var j := (i - 1) * w;
      assert i * w == j + w;
      assert r[j + w..j + w + |rep|] == t[j..j + |rep|];
      assert r[j + w + |rep|] == t[j + |rep|];
    }
  }

  lemma {:induction false} InterleaveEnd(s: string, rep: string)
    ensures var r := InterleaveAll(s, rep);
      |r| == |s| * (|rep| + 1) + |rep| && r[|s| * (|rep| + 1)..] == rep
    decreases |s|
  {
    var w := |rep| + 1;
    if s != [] {
      var tail := s[1..];
      var t := InterleaveAll(tail, rep);
      InterleaveEnd(tail, rep);
      assert InterleaveAll(s, rep) == rep + [s[0]] + t;
      assert |s| * w == |tail| * w + w;
    }
  }

  /** `pat` occurs at `k` and nowhere before it. */
  predicate FirstAt(s: string, pat: string, k: nat)
  {
    OccursAt(s, pat, k) && forall j :: 0 <= j < k ==> !OccursAt(s, pat, j)
  }

  /** Past a first character that does not start an occurrence, the first occurrence is one place earlier. */
  lemma FirstAtTail(s: string, pat: string, k: nat)
    requires 0 < k && FirstAt(s, pat, k)
    ensures !OccursAt(s, pat, 0) && FirstAt(s[1..], pat, k - 1)
  {
    var tail := s[1..];
    assert tail[k - 1..k - 1 + |pat|] == s[k..k + |pat|];
    forall j | 0 <= j < k - 1 ensures !OccursAt(tail, pat, j) {
      if OccursAt(tail, pat, j) {
        assert tail[j..j + |pat|] == s[j + 1..j + 1 + |pat|];
        assert OccursAt(s, pat, j + 1);
      }
    }
  }

  /**
   * Replacement in terms of `find`: the text before the first occurrence is
   * kept, that occurrence becomes `rep`, and the rest is replaced in turn.
   * With `ReplaceAbsent` this pins down `replace` for every non-empty search text.
   */
  lemma ReplaceAtFirst(s: string, find: string, rep: string)
    requires find != [] && Find(s, find) >= 0
    ensures var k := Find(s, find);
      Replace(s, find, rep) == s[..k] + rep + Replace(s[k + |find|..], find, rep)
  {
    var k := Find(s, find);
    assert FirstAt(s, find, k);
    ReplaceAt(s, find, rep, k);
  }

  lemma {:induction false} ReplaceAt(s: string, find: string, rep: string, k: nat)
    requires find != [] && FirstAt(s, find, k)
    ensures ReplaceNonEmpty(s, find, rep) == s[..k] + rep + ReplaceNonEmpty(s[k + |find|..], find, rep)
    decreases k
  {
    if k == 0 {
      ReplaceAtStart(s, find, rep);
    } else {
      FirstAtTail(s, find, k);
      ReplaceAt(s[1..], find, rep, k - 1);
      ReplaceSkip(s, find, rep, k);
    }
  }

  /** Text that opens with `find`: that occurrence becomes `rep`. */
  lemma ReplaceAtStart(s: string, find: string, rep: string)
    requires find != [] && OccursAt(s, find, 0)
    ensures ReplaceNonEmpty(s, find, rep) == s[..0] + rep + ReplaceNonEmpty(s[|find|..], find, rep)
  {
    assert s != [];
    assert s[..|find|] == s[0..0 + |find|];
    assert StartsWith(s, find);
    var rest := ReplaceNonEmpty(s[|find|..], find, rep);
    assert ReplaceNonEmpty(s, find, rep) == rep + rest;
    assert s[..0] + rep == rep;
  }

  /** Text that does not open with `find`: its first character is kept and the rest replaced. */
  lemma RneSkip(s: string, find: string, rep: string)
    requires find != [] && s != [] && !OccursAt(s, find, 0)
    ensures ReplaceNonEmpty(s, find, rep) == [s[0]] + ReplaceNonEmpty(s[1..], find, rep)
  {
    if |find| <= |s| {
      assert s[..|find|] == s[0..0 + |find|];
    }
    assert !StartsWith(s, find);
  }

  /** The same, with the first occurrence `k - 1` characters into the rest. */
  lemma ReplaceSkip(s: string, find: string, rep: string, k: nat)
    requires find != [] && 0 < k && k + |find| <= |s| && !OccursAt(s, find, 0)
    requires var tail := s[1..];
      ReplaceNonEmpty(tail, find, rep) == tail[..k - 1] + rep + ReplaceNonEmpty(tail[k - 1 + |find|..], find, rep)
    ensures ReplaceNonEmpty(s, find, rep) == s[..k] + rep + ReplaceNonEmpty(s[k + |find|..], find, rep)
  {
    var tail := s[1..];
    RneSkip(s, find, rep);
    assert tail[..k - 1] == s[1..k] && tail[k - 1 + |find|..] == s[k + |find|..];
    assert s[..k] == [s[0]] + s[1..k];
    Assoc4([s[0]], s[1..k], rep, ReplaceNonEmpty(s[k + |find|..], find, rep));
  }

  lemma Assoc4(a: string, b: string, c: string, d: string)
    ensures a + (b + c + d) == a + b + c + d
  {
  }

  // ---------------------------------------------------------------------
  // Paths

  /** `os.path.join(a, b)` on POSIX. */
  function Join(a: string, b: string): string
  {
    if StartsWith(b, "/") then b
    else if a == [] || EndsWith(a, "/") then a + b
    else a + "/" + b
  }

  /** The joined path ends with its last component. */
  lemma JoinEndsWith(a: string, b: string)
    ensures EndsWith(Join(a, b), b)
  {
    var r := Join(a, b);
    if !StartsWith(b, "/") {
      var head := if a == [] || EndsWith(a, "/") then a else a + "/";
      assert r == head + b;
      assert r[|r| - |b|..] == b;
    }
  }

  // ---------------------------------------------------------------------
  // Integers and their decimal text

  predicate IsDigit(c: char)
  {
    '0' <= c <= '9'
  }

  function DigitValue(c: char): nat
    requires IsDigit(c)
  {
    c as int - '0' as int
  }

  function DigitChar(d: nat): (c: char)
    requires d < 10
    ensures IsDigit(c) && DigitValue(c) == d
  {
    ('0' as int + d) as char
  }

  /** The characters `int()` strips from both ends (the ASCII ones). */
  predicate IsSpace(c: char)
  {
    c == ' ' || '\t' <= c <= '\r' || 28 <= c as int <= 31
  }

  function StripStart(s: string): (r: string)
    ensures |r| <= |s|
    ensures r == [] || !IsSpace(r[0])
  {
    if s != [] && IsSpace(s[0]) then StripStart(s[1..]) else s
  }

  function StripEnd(s: string): (r: string)
    ensures |r| <= |s|
    ensures r == [] || !IsSpace(r[|r| - 1])
  {
    if s != [] && IsSpace(s[|s| - 1]) then StripEnd(s[..|s| - 1]) else s
  }

  function Strip(s: string): string
  {
    StripEnd(StripStart(s))
  }

  /**
   * The body of a base-10 literal as `int()` accepts it: digits, with single
   * underscores allowed between two digits.
   */
  predicate DigitGroups(t: string)
  {
    && |t| > 0
    && IsDigit(t[0]) && IsDigit(t[|t| - 1])
    && (forall i :: 0 <= i < |t| ==> IsDigit(t[i]) || t[i] == '_')
    && (forall i, j :: 0 <= i && j == i + 1 < |t| && t[i] == '_' ==> t[j] != '_')
  }

  /** The value of a string of digits and underscores, underscores ignored. */
  function GroupsValue(t: string): nat
    requires forall i :: 0 <= i < |t| ==> IsDigit(t[i]) || t[i] == '_'
  {
    if t == [] then 0
    else if t[|t| - 1] == '_' then GroupsValue(t[..|t| - 1])
    else GroupsValue(t[..|t| - 1]) * 10 + DigitValue(t[|t| - 1])
  }

  /**
   * Python's `int(text)` in base 10 on ASCII text: surrounding white space,
   * an optional sign, then digit groups; anything else raises ValueError,
   * here `None`.
   */
  function ParseInt(text: string): (r: Option<int>)
  {
    var t := Strip(text);
    if t != [] && (t[0] == '+' || t[0] == '-') then
      if DigitGroups(t[1..]) then
        var v: int := GroupsValue(t[1..]);
        Some(if t[0] == '-' then -v else v)
      else None
    else if DigitGroups(t) then Some(GroupsValue(t))
    else None
  }

  /** `str(n)` for a non-negative integer: decimal, no leading zero. */
  function NatToString(n: nat): (r: string)
    ensures |r| > 0 && forall i :: 0 <= i < |r| ==> IsDigit(r[i])
    ensures |r| > 1 ==> r[0] != '0'
  {
    if n < 10 then [DigitChar(n)] else NatToString(n / 10) + [DigitChar(n % 10)]
  }

  /** A string of plain digits has no space to strip. */
  lemma DigitsStripped(t: string)
    requires |t| > 0 && forall i :: 0 <= i < |t| ==> IsDigit(t[i])
    ensures Strip(t) == t
  {
    assert !IsSpace(t[0]);
    assert StripStart(t) == t;
    assert !IsSpace(t[|t| - 1]);
  }

  /** `int()` of a string of plain digits is their decimal value. */
  lemma ParseDigits(t: string)
    requires |t| > 0 && forall i :: 0 <= i < |t| ==> IsDigit(t[i])
    ensures ParseInt(t) == Some(GroupsValue(t))
  {
    DigitsStripped(t);
    assert DigitGroups(t);
  }

  lemma {:induction false} GroupsValueOfDecimal(n: nat)
    ensures GroupsValue(NatToString(n)) == n
    decreases n
  {
    var s := NatToString(n);
    if n >= 10 {
      GroupsValueOfDecimal(n / 10);
      assert s[..|s| - 1] == NatToString(n / 10);
    }
  }

  /** `int(str(n)) == n`: the decimal rendering reads back as the same number. */
  lemma ParseDecimal(n: nat)
    ensures ParseInt(NatToString(n)) == Some(n)
  {
    var s := NatToString(n);
    DigitsStripped(s);
    GroupsValueOfDecimal(n);
    assert DigitGroups(s);
  }

  // ---------------------------------------------------------------------
  // Splitting and joining on one separator character

  /** `sep.join(parts)`. */
  function JoinWith(parts: seq<string>, sep: char): string
  {
    if parts == [] then []
    else if |parts| == 1 then parts[0]
    else parts[0] + [sep] + JoinWith(parts[1..], sep)
  }

  /** `s.split(sep)`: always at least one field. */
  function SplitOn(s: string, sep: char): (r: seq<string>)
    ensures |r| >= 1
  {
    if s == [] then [[]]
    else if s[0] == sep then [[]] + SplitOn(s[1..], sep)
    else
      var rest := SplitOn(s[1..], sep);
      [[s[0]] + rest[0]] + rest[1..]
  }

  lemma {:induction false} SplitAfterField(field: string, sep: char, rest: string)
    requires sep !in field
    ensures SplitOn(field + [sep] + rest, sep) == [field] + SplitOn(rest, sep)
    decreases |field|
  {
    if field == [] {
      assert ([] + [sep] + rest)[1..] == rest;
    } else {
      SplitAfterField(field[1..], sep, rest);
      assert (field + [sep] + rest)[1..] == field[1..] + [sep] + rest;
      assert [field[0]] + field[1..] == field;
    }
  }

  lemma {:induction false} SplitField(field: string, sep: char)
    requires sep !in field
    ensures SplitOn(field, sep) == [field]
    decreases |field|
  {
    if field != [] {
      SplitField(field[1..], sep);
      assert [field[0]] + field[1..] == field;
    }
  }

  /** Splitting what was joined gives the fields back when none holds the separator. */
  lemma {:induction false} SplitJoin(parts: seq<string>, sep: char)
    requires |parts| >= 1
    requires forall i :: 0 <= i < |parts| ==> sep !in parts[i]
    ensures SplitOn(JoinWith(parts, sep), sep) == parts
    decreases |parts|
  {
    if |parts| == 1 {
      SplitField(parts[0], sep);
    } else {
      SplitAfterField(parts[0], sep, JoinWith(parts[1..], sep));
      SplitJoin(parts[1..], sep);
    }
  }
}
