/** The string operations of the Go and JavaScript libraries used by the modelled code. */
module Text {
  import opened Sorting

  // ---------------------------------------------------------------- order

  /** The code-point order of Go's `<` on strings. */
  predicate Le(a: string, b: string) {
    a == [] || (b != [] && (a[0] < b[0] || (a[0] == b[0] && Le(a[1..], b[1..]))))
  }

  lemma {:induction false} LeTotal(a: string, b: string)
    ensures Le(a, b) || Le(b, a)
    ensures Le(a, b) && Le(b, a) ==> a == b
  {
    if a != [] && b != [] && a[0] == b[0] {
      LeTotal(a[1..], b[1..]);
      assert a == [a[0]] + a[1..] && b == [b[0]] + b[1..];
    }
  }

  lemma {:induction false} LeTransitive(a: string, b: string, c: string)
    requires Le(a, b) && Le(b, c)
    ensures Le(a, c)
  {
    if a != [] && a[0] == b[0] && b[0] == c[0] {
      LeTransitive(a[1..], b[1..], c[1..]);
    }
  }

  lemma LeIsTotalOrder()
    ensures TotalPreorder(Le)
    ensures forall a, b :: Le(a, b) && Le(b, a) ==> a == b
    ensures forall a :: Le(a, a)
  {
    forall a, b ensures (Le(a, b) || Le(b, a)) && (Le(a, b) && Le(b, a) ==> a == b) {
      LeTotal(a, b);
    }
    forall a, b, c | Le(a, b) && Le(b, c) ensures Le(a, c) {
      LeTransitive(a, b, c);
    }
  }

  // ---------------------------------------------------------------- searching

  // Strings of any kind of unit: characters, bytes, UTF-16 code units.

  predicate OccursAt<T(==)>(s: seq<T>, sep: seq<T>, i: int) {
    0 <= i && i + |sep| <= |s| && s[i..i + |sep|] == sep
  }

  /** First occurrence of `sep` at or after `from`, or -1. */
  function IndexFrom<T(==)>(s: seq<T>, sep: seq<T>, from: nat): (i: int)
    requires from <= |s|
    ensures i == -1 || (from <= i && OccursAt(s, sep, i))
    ensures forall j :: from <= j && (i == -1 || j < i) ==> !OccursAt(s, sep, j)
    decreases |s| - from
  {
    if OccursAt(s, sep, from) then from
    else if from == |s| then -1
    else IndexFrom(s, sep, from + 1)
  }

  /** JavaScript's `indexOf`. */
  function IndexOf<T(==)>(s: seq<T>, sep: seq<T>): (i: int)
    ensures i == -1 || OccursAt(s, sep, i)
    ensures forall j :: (i == -1 || j < i) ==> !OccursAt(s, sep, j)
  {
    IndexFrom(s, sep, 0)
  }

  predicate Contains<T(==)>(s: seq<T>, sep: seq<T>) {
    IndexOf(s, sep) != -1
  }

  // ---------------------------------------------------------------- split and join

  /** JavaScript's `split` for a non-empty separator: cut at the leftmost occurrences. */
  function Split<T(==)>(s: seq<T>, sep: seq<T>): (parts: seq<seq<T>>)
    requires sep != []
    ensures |parts| >= 1
    decreases |s|
  {
    var i := IndexOf(s, sep);
    if i == -1 then [s]
    else [s[..i]] + Split(s[i + |sep|..], sep)
  }

  function Join<T(==)>(parts: seq<seq<T>>, sep: seq<T>): seq<T> {
    if parts == [] then []
    else if |parts| == 1 then parts[0]
    else parts[0] + sep + Join(parts[1..], sep)
  }

  lemma JoinCons<T>(first: seq<T>, rest: seq<seq<T>>, sep: seq<T>)
    requires rest != []
    ensures Join([first] + rest, sep) == first + sep + Join(rest, sep)
  {
    assert ([first] + rest)[1..] == rest;
  }

  lemma CutAt<T>(s: seq<T>, sep: seq<T>, i: int)
    requires OccursAt(s, sep, i)
    ensures s == s[..i] + sep + s[i + |sep|..]
  {
  }

  /** Joining the pieces gives the text back. */
  lemma {:induction false} JoinSplit<T>(s: seq<T>, sep: seq<T>)
    requires sep != []
    ensures Join(Split(s, sep), sep) == s
    decreases |s|
  {
    var i := IndexOf(s, sep);
    if i != -1 {
      var rest := s[i + |sep|..];
      JoinSplit(rest, sep);
      JoinCons(s[..i], Split(rest, sep), sep);
      CutAt(s, sep, i);
    }
  }

  lemma PrefixBeforeFirst<T>(s: seq<T>, sep: seq<T>, i: int)
    requires sep != [] && i == IndexOf(s, sep) && i != -1
    ensures IndexOf(s[..i], sep) == -1
  {
    forall j
      ensures !OccursAt(s[..i], sep, j)
    {
      if 0 <= j && j + |sep| <= i {
        assert s[..i][j..j + |sep|] == s[j..j + |sep|];
        assert !OccursAt(s, sep, j);
      }
    }
  }

  /** No piece contains the separator. */
  lemma {:induction false} SplitPieces<T>(s: seq<T>, sep: seq<T>)
    requires sep != []
    ensures forall k :: 0 <= k < |Split(s, sep)| ==> IndexOf(Split(s, sep)[k], sep) == -1
    decreases |s|
  {
    var i := IndexOf(s, sep);
    if i != -1 {
      SplitPieces(s[i + |sep|..], sep);
      PrefixBeforeFirst(s, sep, i);
    }
  }

  function Last<T>(s: seq<T>): T
    requires s != []
  {
    s[|s| - 1]
  }

  function Init<T>(s: seq<T>): seq<T>
    requires s != []
  {
    s[..|s| - 1]
  }

  /** Splitting is incremental: text that arrives later only changes the last piece. */
  lemma {:induction false} SplitAppend<T>(x: seq<T>, y: seq<T>, sep: seq<T>)
    requires sep != []
    ensures Split(x + y, sep) == Init(Split(x, sep)) + Split(Last(Split(x, sep)) + y, sep)
    decreases |x|
  {
    var i := IndexOf(x, sep);
    if i == -1 {
      assert Init(Split(x, sep)) == [];
    } else {
      SplitAppendStep(x, y, sep, i);
      var rest := x[i + |sep|..];
      SplitAppend(rest, y, sep);
      ConsInit(x[..i], Split(rest, sep), Split(Last(Split(rest, sep)) + y, sep));
    }
  }

  lemma SplitAt<T>(s: seq<T>, sep: seq<T>, head: seq<T>, rest: seq<T>)
    requires sep != [] && s == head + sep + rest && IndexOf(s, sep) == |head|
    ensures Split(s, sep) == [head] + Split(rest, sep)
  {
    assert s[..|head|] == head && s[|head| + |sep|..] == rest;
  }

  lemma SplitAppendStep<T>(x: seq<T>, y: seq<T>, sep: seq<T>, i: int)
    requires sep != [] && i == IndexOf(x, sep) && i != -1
    ensures Split(x, sep) == [x[..i]] + Split(x[i + |sep|..], sep)
    ensures Split(x + y, sep) == [x[..i]] + Split(x[i + |sep|..] + y, sep)
  {
    var head, rest := x[..i], x[i + |sep|..];
    CutAt(x, sep, i);
    SplitAt(x, sep, head, rest);
    IndexOfAppend(x, y, sep);
    assert x + y == head + sep + (rest + y);
    SplitAt(x + y, sep, head, rest + y);
  }

  lemma ConsInit<T>(a: T, q: seq<T>, tail: seq<T>)
    requires q != []
    ensures var p := [a] + q;
            Last(p) == Last(q) && Init(p) + tail == [a] + (Init(q) + tail)
  {
  }

  lemma IndexOfAppend<T>(x: seq<T>, y: seq<T>, sep: seq<T>)
    requires sep != [] && IndexOf(x, sep) != -1
    ensures IndexOf(x + y, sep) == IndexOf(x, sep)
  {
    var i := IndexOf(x, sep);
    var k := IndexOf(x + y, sep);
    assert (x + y)[i..i + |sep|] == x[i..i + |sep|];
    assert OccursAt(x + y, sep, i);
    assert k != -1 && k <= i;
    assert (x + y)[k..k + |sep|] == x[k..k + |sep|];
    assert OccursAt(x, sep, k);
  }

  /** `strings.ReplaceAll(s, q, qq)` for one character. */
  function Doubled(s: string, q: char): string {
    if s == "" then ""
    else (if s[0] == q then [q, q] else [s[0]]) + Doubled(s[1..], q)
  }

  // ---------------------------------------------------------------- decimal numbers

  predicate IsDigit(c: char) {
    '0' <= c <= '9'
  }

  function DigitChar(d: nat): (c: char)
    requires d < 10
    ensures IsDigit(c) && (c as int) - ('0' as int) == d
  {
    ('0' as int + d) as char
  }

  /** `%d` for a non-negative number. */
  function Decimal(n: nat): (s: string)
    ensures s != "" && forall k :: 0 <= k < |s| ==> IsDigit(s[k])
  {
    if n < 10 then [DigitChar(n)] else Decimal(n / 10) + [DigitChar(n % 10)]
  }

  function DigitOf(c: char): (d: nat)
    requires IsDigit(c)
    ensures d < 10 && DigitChar(d) == c
  {
    (c as int) - ('0' as int)
  }

  /** The value of a run of digits read left to right after `acc`. */
  function DigitsValue(s: string, acc: nat): nat
    requires forall k :: 0 <= k < |s| ==> IsDigit(s[k])
  {
    if s == "" then acc else DigitsValue(s[1..], acc * 10 + DigitOf(s[0]))
  }

  lemma {:induction false} DigitsValueAppend(s: string, c: char, acc: nat)
    requires forall k :: 0 <= k < |s| ==> IsDigit(s[k])
    requires IsDigit(c)
    ensures DigitsValue(s + [c], acc) == DigitsValue(s, acc) * 10 + DigitOf(c)
  {
    if s == "" {
      assert (s + [c])[1..] == "";
    } else {
      assert (s + [c])[1..] == s[1..] + [c];
      DigitsValueAppend(s[1..], c, acc * 10 + DigitOf(s[0]));
    }
  }

  /** Printing and reading a number are inverse. */
  lemma {:induction false} DecimalValue(n: nat)
    ensures DigitsValue(Decimal(n), 0) == n
  {
    if n < 10 {
      assert Decimal(n)[1..] == "";
    } else {
      DecimalValue(n / 10);
      DigitsValueAppend(Decimal(n / 10), DigitChar(n % 10), 0);
    }
  }

  // ---------------------------------------------------------------- letters

  function UpperChar(c: char): char {
    if 'a' <= c <= 'z' then ((c as int) - 32) as char else c
  }

  function LowerChar(c: char): char {
    if 'A' <= c <= 'Z' then ((c as int) + 32) as char else c
  }

  /** Upper case of ASCII text. */
  function Upper(s: string): (r: string)
    ensures |r| == |s|
  {
    seq(|s|, i requires 0 <= i < |s| => UpperChar(s[i]))
  }

  /** Lower case of ASCII text. */
  function Lower(s: string): (r: string)
    ensures |r| == |s|
  {
    seq(|s|, i requires 0 <= i < |s| => LowerChar(s[i]))
  }
}
