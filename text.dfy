/** String helpers shared by the printers: the last occurrence of a character,
    joining and splitting on a separator, decimal rendering of integers, and
    parenthesis balance. Strings are sequences of Unicode scalar values
    (`char`), not of UTF-16 code units; every comparison is ordinal. */
module Text {

  // ---------------------------------------------------------------------------
  // Searching

  /** Index of the last occurrence of `c` in `s`, or -1 (String.LastIndexOf). */
  function LastIndexOf(s: string, c: char): (r: int)
    ensures -1 <= r < |s|
    ensures r >= 0 ==> s[r] == c && c !in s[r + 1..]
    ensures r < 0 ==> c !in s
  {
    if s == [] then -1
    else if s[|s| - 1] == c then |s| - 1
    else
      var r := LastIndexOf(s[..|s| - 1], c);
      assert r >= 0 ==> s[r + 1..] == s[..|s| - 1][r + 1..] + [s[|s| - 1]];
      assert r < 0 ==> s == s[..|s| - 1] + [s[|s| - 1]];
      r
  }

  /** The last occurrence of `c` in `a + [c] + b` is the one between them when `b` has none. */
  lemma LastIndexOfSplit(a: string, c: char, b: string)
    requires c !in b
    ensures LastIndexOf(a + [c] + b, c) == |a|
  {
    var s := a + [c] + b;
    assert s[|a|] == c;
    assert s[|a| + 1..] == b;
  }

  // ---------------------------------------------------------------------------
  // Concatenation, joining and splitting

  /** A suffix of a sequence is its first element followed by the rest. */
  lemma DropCons<T>(s: seq<T>, i: nat)
    requires i < |s|
    ensures s[i..] == [s[i]] + s[i + 1..]
  {
  }

  /** Regrouping appends, for the string-builder loops. */
  lemma AppendAssoc(a: string, b: string, c: string)
    ensures a + b + c == a + (b + c)
  {
  }

  /** All parts, in order, with nothing between them. */
  function Concat(parts: seq<string>): string
  {
    if parts == [] then "" else Concat(parts[..|parts| - 1]) + parts[|parts| - 1]
  }

  lemma {:induction false} ConcatAppend(a: seq<string>, b: seq<string>)
    ensures Concat(a + b) == Concat(a) + Concat(b)
  {
    if b == [] {
      assert a + b == a;
    } else {
      var front, last := b[..|b| - 1], b[|b| - 1];
      assert (a + b)[..|a + b| - 1] == a + front;
      assert (a + b)[|a + b| - 1] == last;
      ConcatAppend(a, front);
      AppendAssoc(Concat(a), Concat(front), last);
    }
  }

  /** Concatenation unfolded from the front. */
  lemma ConcatCons(x: string, rest: seq<string>)
    ensures Concat([x] + rest) == x + Concat(rest)
  {
    ConcatAppend([x], rest);
    assert [x][..0] == [];
  }

  /** The items in order with exactly one `sep` between neighbours and none at
      either end; the empty list joins to "". This is what the printers' loops
      build with their `first` flag. */
  function Join(items: seq<string>, sep: char): string
  {
    if |items| == 0 then ""
    else if |items| == 1 then items[0]
    else Join(items[..|items| - 1], sep) + [sep] + items[|items| - 1]
  }

  /** Appending one item to a non-empty list adds one separator and the item. */
  lemma JoinSnoc(items: seq<string>, x: string, sep: char)
    requires items != []
    ensures Join(items + [x], sep) == Join(items, sep) + [sep] + x
  {
    assert (items + [x])[..|items|] == items;
  }

  /** One step of a loop that appends a separator before every item but the
      first: the join of the first i + 1 items. */
  lemma JoinStep(items: seq<string>, i: nat, sep: char)
    requires i < |items|
    ensures Join(items[..i + 1], sep) ==
      if i == 0 then items[0] else Join(items[..i], sep) + [sep] + items[i]
  {
    if i > 0 {
      assert items[..i + 1] == items[..i] + [items[i]];
      JoinSnoc(items[..i], items[i], sep);
    }
  }

  /** The same step seen from the builder: once the separator (for every item
      but the first) has been appended after `head` and the joined items so
      far, appending item i gives `head` and the join of the first i + 1 items. */
  lemma JoinLoopStep(head: string, items: seq<string>, i: nat, sep: char, before: string)
    requires i < |items|
    requires before == head + Join(items[..i], sep) + (if i == 0 then "" else [sep])
    ensures before + items[i] == head + Join(items[..i + 1], sep)
  {
    JoinStep(items, i, sep);
    if i > 0 {
      AppendAssoc(head, Join(items[..i], sep), [sep]);
      AppendAssoc(head, Join(items[..i], sep) + [sep], items[i]);
    } else {
      assert items[..0] == [];
    }
  }

  /** JoinLoopStep for a builder that starts empty. */
  lemma JoinLoopStepFromEmpty(items: seq<string>, i: nat, sep: char, before: string)
    requires i < |items|
    requires before == Join(items[..i], sep) + (if i == 0 then "" else [sep])
    ensures before + items[i] == Join(items[..i + 1], sep)
  {
    JoinStep(items, i, sep);
  }

  /** Cuts `s` at every occurrence of `sep`; the pieces contain no `sep`. */
  function Split(s: string, sep: char): (r: seq<string>)
    ensures |r| > 0
    ensures forall i | 0 <= i < |r| :: sep !in r[i]
    decreases |s|
  {
    var k := LastIndexOf(s, sep);
    if k < 0 then [s]
    else
      var front, piece := Split(s[..k], sep), s[k + 1..];
      SnocPieces(front, piece, sep);
      front + [piece]
  }

  /** Appending a separator-free piece keeps every piece separator-free. */
  lemma SnocPieces(front: seq<string>, piece: string, sep: char)
    requires forall i | 0 <= i < |front| :: sep !in front[i]
    requires sep !in piece
    ensures forall i | 0 <= i < |front + [piece]| :: sep !in (front + [piece])[i]
  {
  }

  /** Splitting a join of separator-free items gives the items back. */
  lemma {:induction false} SplitJoin(items: seq<string>, sep: char)
    requires items != []
    requires forall i | 0 <= i < |items| :: sep !in items[i]
    ensures Split(Join(items, sep), sep) == items
  {
    if |items| > 1 {
      var front, last := items[..|items| - 1], items[|items| - 1];
      assert items == front + [last];
      SplitJoin(front, sep);
      JoinSnoc(front, last, sep);
      var j := Join(front, sep);
      LastIndexOfSplit(j, sep, last);
      var s := j + [sep] + last;
      assert s[..|j|] == j && s[|j| + 1..] == last;
    }
  }

  /** Joining the pieces of a split gives the string back. */
  lemma {:induction false} JoinSplit(s: string, sep: char)
    ensures Join(Split(s, sep), sep) == s
    decreases |s|
  {
    var k := LastIndexOf(s, sep);
    if k >= 0 {
      JoinSplit(s[..k], sep);
      JoinSnoc(Split(s[..k], sep), s[k + 1..], sep);
      assert s == s[..k] + [sep] + s[k + 1..];
    }
  }

  /** Number of occurrences of `c` in `s`. */
  function Count(s: string, c: char): nat
  {
    if s == [] then 0 else Count(s[..|s| - 1], c) + (if s[|s| - 1] == c then 1 else 0)
  }

  lemma {:induction false} CountAppend(a: string, b: string, c: char)
    ensures Count(a + b, c) == Count(a, c) + Count(b, c)
  {
    if b == [] {
      assert a + b == a;
    } else {
      assert (a + b)[..|a + b| - 1] == a + b[..|b| - 1];
      CountAppend(a, b[..|b| - 1], c);
    }
  }

  lemma {:induction false} CountAbsent(s: string, c: char)
    requires c !in s
    ensures Count(s, c) == 0
  {
    if s != [] {
      assert s[..|s| - 1] <= s;
      CountAbsent(s[..|s| - 1], c);
    }
  }

  /** Joining n separator-free items puts exactly n - 1 separators in the text. */
  lemma {:induction false} JoinSeparatorCount(items: seq<string>, sep: char)
    requires items != []
    requires forall i | 0 <= i < |items| :: sep !in items[i]
    ensures Count(Join(items, sep), sep) == |items| - 1
  {
    var last := items[|items| - 1];
    CountAbsent(last, sep);
    if |items| > 1 {
      var front := items[..|items| - 1];
      JoinSeparatorCount(front, sep);
      CountAppend(Join(front, sep) + [sep], last, sep);
      CountAppend(Join(front, sep), [sep], sep);
      assert [sep][..0] == [];
    }
  }

  /** A non-empty join starts with the first item and ends with the last one. */
  lemma {:induction false} JoinEnds(items: seq<string>, sep: char)
    requires items != []
    ensures |items[0]| <= |Join(items, sep)|
    ensures Join(items, sep)[..|items[0]|] == items[0]
    ensures Join(items, sep)[|Join(items, sep)| - |items[|items| - 1]|..] == items[|items| - 1]
  {
    if |items| > 1 {
      var front := items[..|items| - 1];
      JoinEnds(front, sep);
      assert front[0] == items[0];
    }
  }

  // ---------------------------------------------------------------------------
  // Decimal numbers

  predicate IsDigit(c: char) { '0' <= c <= '9' }

  predicate AllDigits(s: string) { forall i | 0 <= i < |s| :: IsDigit(s[i]) }

  function DigitChar(d: nat): (c: char)
    requires d < 10
    ensures IsDigit(c)
  {
    ('0' as int + d) as char
  }

  function DigitValue(c: char): nat
    requires IsDigit(c)
  {
    c as int - '0' as int
  }

  /** The digits of `n` as Int32.ToString writes a non-negative value: no sign,
      no group separator, no leading zero. */
  function DecimalString(n: nat): (s: string)
    ensures |s| > 0 && AllDigits(s)
    ensures n > 0 ==> s[0] != '0'
  {
    if n < 10 then [DigitChar(n)] else DecimalString(n / 10) + [DigitChar(n % 10)]
  }

  /** The number a string of digits denotes. */
  function DecimalValue(s: string): nat
    requires AllDigits(s)
  {
    if s == [] then 0 else DecimalValue(s[..|s| - 1]) * 10 + DigitValue(s[|s| - 1])
  }

  lemma {:induction false} DecimalRoundTrip(n: nat)
    ensures DecimalValue(DecimalString(n)) == n
  {
    if n >= 10 {
      DecimalRoundTrip(n / 10);
      var s := DecimalString(n);
      assert s[..|s| - 1] == DecimalString(n / 10);
    }
  }

  // ---------------------------------------------------------------------------
  // Parentheses

  predicate ParenFree(s: string) { '(' !in s && ')' !in s }

  function Delta(c: char): int
  {
    if c == '(' then 1 else if c == ')' then -1 else 0
  }

  /** Opening minus closing parentheses. */
  function Net(s: string): int
  {
    if s == [] then 0 else Net(s[..|s| - 1]) + Delta(s[|s| - 1])
  }

  /** Every closing parenthesis closes an earlier opening one, and all are closed. */
  ghost predicate Balanced(s: string)
  {
    Net(s) == 0 && forall k | 0 <= k <= |s| :: Net(s[..k]) >= 0
  }

  lemma {:induction false} NetAppend(a: string, b: string)
    ensures Net(a + b) == Net(a) + Net(b)
  {
    if b == [] {
      assert a + b == a;
    } else {
      assert (a + b)[..|a + b| - 1] == a + b[..|b| - 1];
      NetAppend(a, b[..|b| - 1]);
    }
  }

  lemma {:induction false} ParenFreeNet(s: string)
    requires ParenFree(s)
    ensures Net(s) == 0
  {
    if s != [] {
      assert s[..|s| - 1] <= s;
      ParenFreeNet(s[..|s| - 1]);
    }
  }

  lemma ParenFreeBalanced(s: string)
    requires ParenFree(s)
    ensures Balanced(s)
  {
    ParenFreeNet(s);
    forall k | 0 <= k <= |s| ensures Net(s[..k]) >= 0 {
      assert s[..k] <= s;
      ParenFreeNet(s[..k]);
    }
  }

  lemma BalancedAppend(a: string, b: string)
    requires Balanced(a) && Balanced(b)
    ensures Balanced(a + b)
  {
    NetAppend(a, b);
    forall k | 0 <= k <= |a + b| ensures Net((a + b)[..k]) >= 0 {
      if k <= |a| {
        assert (a + b)[..k] == a[..k];
      } else {
        assert (a + b)[..k] == a + b[..k - |a|];
        NetAppend(a, b[..k - |a|]);
      }
    }
  }

  lemma BalancedWrap(x: string)
    requires Balanced(x)
    ensures Balanced("(" + x + ")")
  {
    var s := "(" + x + ")";
    NetAppend("(" + x, ")");
    NetAppend("(", x);
    forall k | 0 <= k <= |s| ensures Net(s[..k]) >= 0 {
      if 1 <= k <= |x| + 1 {
        assert s[..k] == "(" + x[..k - 1];
        NetAppend("(", x[..k - 1]);
      } else if k == |s| {
        assert s[..k] == s;
      }
    }
  }

  /** Index of the parenthesis that closes the one at `s[0]`, scanning from
      `i` with `depth` opening parentheses still open; -1 when none does. */
  function MatchFrom(s: string, i: nat, depth: int): (r: int)
    ensures r == -1 || i <= r < |s|
    decreases |s| - i
  {
    if i >= |s| then -1
    else
      var d := depth + Delta(s[i]);
      if d == 0 then i else MatchFrom(s, i + 1, d)
  }

  function MatchingClose(s: string): int
  {
    MatchFrom(s, 0, 0)
  }

  lemma {:induction false} MatchScan(x: string, rest: string, i: nat)
    requires Balanced(x)
    requires 1 <= i <= |x| + 1
    ensures MatchFrom("(" + x + ")" + rest, i, 1 + Net(x[..i - 1])) == |x| + 1
    decreases |x| + 1 - i
  {
    var s := "(" + x + ")" + rest;
    if i == |x| + 1 {
      assert x[..i - 1] == x;
      assert s[i] == ')';
    } else {
      assert s[i] == x[i - 1];
      assert x[..i][..i - 1] == x[..i - 1];
      MatchScan(x, rest, i + 1);
    }
  }

  /** In `"(" + x + ")" + rest` with `x` balanced, the first parenthesis is
      closed by the one right after `x`. */
  lemma MatchWrapped(x: string, rest: string)
    requires Balanced(x)
    ensures MatchingClose("(" + x + ")" + rest) == |x| + 1
    ensures var s := "(" + x + ")" + rest; s[0] == '(' && s[1..|x| + 1] == x && s[|x| + 2..] == rest
  {
    assert x[..0] == "";
    MatchScan(x, rest, 1);
    var s := "(" + x + ")" + rest;
    assert s[1..|x| + 1] == x;
    assert s[|x| + 2..] == rest;
  }

  /** Length of the longest prefix of `s` without a parenthesis. */
  function NameEnd(s: string): (n: nat)
    ensures n <= |s|
    ensures ParenFree(s[..n])
    ensures n < |s| ==> s[n] == '(' || s[n] == ')'
  {
    if s == [] then 0
    else if s[0] == '(' || s[0] == ')' then 0
    else
      var n := 1 + NameEnd(s[1..]);
      assert s[..n] == [s[0]] + s[1..][..n - 1];
      n
  }

  lemma {:induction false} NameEndAt(a: string, b: string)
    requires ParenFree(a)
    requires b == [] || b[0] == '('
    ensures NameEnd(a + b) == |a|
  {
    if a != [] {
      assert (a + b)[1..] == a[1..] + b;
      NameEndAt(a[1..], b);
    }
  }
}
