/**
 The few operations of Go's `strings` package that the mesh relies on, and the
 fact that makes suffix matching tractable: a dotted suffix of a name is the
 same thing as a suffix of its list of labels.
 */
module Strings {

  predicate HasSuffix(s: string, suffix: string) {
    |suffix| <= |s| && s[|s| - |suffix|..] == suffix
  }

  function TrimSuffix(s: string, suffix: string): string {
    if HasSuffix(s, suffix) then s[..|s| - |suffix|] else s
  }

  /** `strings.Split(s, ".")`: always at least one label, possibly empty ones. */
  function Split(s: string): (labels: seq<string>)
    ensures |labels| >= 1
  {
    if s == "" then [""]
    else
      var rest := Split(s[1..]);
      if s[0] == '.' then [""] + rest else [[s[0]] + rest[0]] + rest[1..]
  }

  /** `strings.Join(labels, ".")`. */
  function Join(labels: seq<string>): string {
    if |labels| == 0 then ""
    else if |labels| == 1 then labels[0]
    else labels[0] + "." + Join(labels[1..])
  }

  predicate DotFree(s: string) {
    '.' !in s
  }

  lemma {:induction false} SplitDotFree(s: string)
    requires DotFree(s)
    ensures Split(s) == [s]
  {
    if s != "" {
      SplitDotFree(s[1..]);
      assert [s[0]] + s[1..] == s;
    }
  }

  lemma {:induction false} SplitLabelsDotFree(s: string)
    ensures forall i :: 0 <= i < |Split(s)| ==> DotFree(Split(s)[i])
  {
    if s != "" { SplitLabelsDotFree(s[1..]); }
  }

  /** Splitting distributes over a dot. */
  lemma {:induction false} SplitDot(a: string, b: string)
    ensures Split(a + "." + b) == Split(a) + Split(b)
  {
    if a == "" {
      assert (a + "." + b)[1..] == b;
    } else {
      assert (a + "." + b)[1..] == a[1..] + "." + b;
      SplitDot(a[1..], b);
    }
  }

  lemma {:induction false} JoinSplit(s: string)
    ensures Join(Split(s)) == s
  {
    if s != "" {
      JoinSplit(s[1..]);
      var rest := Split(s[1..]);
      if s[0] == '.' {
        assert ([""] + rest)[1..] == rest;
      } else {
        var labels := [[s[0]] + rest[0]] + rest[1..];
        assert labels[1..] == rest[1..];
        assert s == [s[0]] + s[1..];
      }
    }
  }

  lemma {:induction false} JoinCat(a: seq<string>, b: seq<string>)
    requires a != [] && b != []
    ensures Join(a + b) == Join(a) + "." + Join(b)
  {
    if |a| == 1 {
      assert (a + b)[1..] == b;
    } else {
      assert (a + b)[1..] == a[1..] + b;
      JoinCat(a[1..], b);
      assert a[0] + "." + (Join(a[1..]) + "." + Join(b)) == a[0] + "." + Join(a[1..]) + "." + Join(b);
    }
  }

  /** Joining and splitting are inverse on lists of dot-free labels. */
  lemma {:induction false} SplitJoin(labels: seq<string>)
    requires labels != []
    requires forall i :: 0 <= i < |labels| ==> DotFree(labels[i])
    ensures Split(Join(labels)) == labels
  {
    SplitDotFree(labels[0]);
    if |labels| > 1 {
      SplitDot(labels[0], Join(labels[1..]));
      SplitJoin(labels[1..]);
      assert labels == [labels[0]] + labels[1..];
    }
  }

  /** `labels` ends with `tail` and has at least one label before it. */
  predicate EndsWithLabels(labels: seq<string>, tail: seq<string>) {
    |tail| < |labels| && labels[|labels| - |tail|..] == tail
  }

  lemma {:induction false} DottedSuffixGivesLabels(s: string, t: string)
    requires HasSuffix(s, "." + t)
    ensures EndsWithLabels(Split(s), Split(t))
  {
    var a := s[..|s| - |t| - 1];
    assert s == a + ("." + t);
    assert a + ("." + t) == a + "." + t;
    SplitDot(a, t);
  }

  lemma TrimCat(a: string, suffix: string)
    ensures HasSuffix(a + suffix, suffix) && TrimSuffix(a + suffix, suffix) == a
  {
  }

  lemma Assoc<T>(a: seq<T>, b: seq<T>, c: seq<T>)
    ensures a + b + c == a + (b + c)
  {
  }

  lemma DottedCat(a: string, t: string)
    ensures HasSuffix(a + "." + t, "." + t)
  {
    Assoc(a, ".", t);
    TrimCat(a, "." + t);
  }

  lemma {:induction false} JoinFront(s: string, t: string, front: seq<string>)
    requires front != [] && Split(s) == front + Split(t)
    ensures s == Join(front) + "." + t
  {
    JoinCat(front, Split(t));
    JoinSplit(s);
    JoinSplit(t);
  }

  lemma {:induction false} LabelsGiveDottedSuffix(s: string, t: string, front: seq<string>)
    requires front != [] && Split(s) == front + Split(t)
    ensures HasSuffix(s, "." + t)
  {
    JoinFront(s, t, front);
    DottedCat(Join(front), t);
  }

  lemma {:induction false} LabelSuffixGivesDottedSuffix(s: string, t: string)
    requires EndsWithLabels(Split(s), Split(t))
    ensures HasSuffix(s, "." + t)
  {
    var labels, n := Split(s), |Split(s)| - |Split(t)|;
    assert labels == labels[..n] + labels[n..];
    LabelsGiveDottedSuffix(s, t, labels[..n]);
  }

  /** A name ends with `.t` exactly when its labels properly end with the labels of `t`. */
  lemma {:induction false} DottedSuffixIsLabelSuffix(s: string, t: string)
    ensures HasSuffix(s, "." + t) <==> EndsWithLabels(Split(s), Split(t))
  {
    if HasSuffix(s, "." + t) {
      DottedSuffixGivesLabels(s, t);
    } else if EndsWithLabels(Split(s), Split(t)) {
      LabelSuffixGivesDottedSuffix(s, t);
    }
  }

  lemma SeparatorPosition(x: string, c: char, y: string)
    requires c !in x
    ensures (x + [c] + y)[|x|] == c && forall i :: 0 <= i < |x| ==> (x + [c] + y)[i] != c
  {
  }

  /** A string splits in one way only at the first occurrence of a separator. */
  lemma CutIsUnique(x1: string, y1: string, x2: string, y2: string, c: char)
    requires c !in x1 && c !in x2 && x1 + [c] + y1 == x2 + [c] + y2
    ensures x1 == x2 && y1 == y2
  {
    var a := x1 + [c] + y1;
    SeparatorPosition(x1, c, y1);
    SeparatorPosition(x2, c, y2);
    assert |x1| == |x2|;
    assert x1 == a[..|x1|] == x2 && y1 == a[|x1| + 1..] == y2;
  }

  const DIGITS := "0123456789"

  /** `fmt.Sprintf("%d", n)`. */
  function Decimal(n: nat): (r: string)
    ensures r != "" && forall i :: 0 <= i < |r| ==> r[i] in DIGITS
  {
    if n < 10 then [DIGITS[n]] else Decimal(n / 10) + [DIGITS[n % 10]]
  }

  /** The number a string of decimal digits stands for. */
  function NumberOf(s: string): int {
    if s == "" then 0 else 10 * NumberOf(s[..|s| - 1]) + (s[|s| - 1] as int - '0' as int)
  }

  /** A number is written so that it reads back, without leading zeros. */
  lemma {:induction false} DecimalReadsBack(n: nat)
    ensures NumberOf(Decimal(n)) == n && (n > 0 ==> Decimal(n)[0] != '0')
  {
    assert DIGITS[n % 10] as int - '0' as int == n % 10;
    if n < 10 {
      assert Decimal(n)[..0] == "";
    } else {
      DecimalReadsBack(n / 10);
      assert Decimal(n)[..|Decimal(n)| - 1] == Decimal(n / 10);
    }
  }
}
