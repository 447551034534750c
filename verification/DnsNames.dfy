/**
 Name normalisation in the local DNS proxy (pkg/dns/handler.go).

 A resolver that applies its search list appends domains to the name the
 application asked for. `GetRawQName` strips what was appended, and
 `RewriteQuestions` turns the result into the name that is sent upstream.
 */
module DnsNames {
  import opened Strings

  /** The suffixes that mark a name as expanded, most specific first. */
  function SuffixDomains(trustDomain: string): (r: seq<string>)
    ensures |r| == |Split(trustDomain)| + 1
  {
    var sections := Split(trustDomain);
    [".svc." + trustDomain + "."] + seq(|sections|, i requires 0 <= i < |sections| => "." + Join(sections[i..]) + ".")
  }

  /** The `i`-th search name of a client in `ns`: `svc`, `i` labels of the trust domain, the namespace. */
  function SearchName(trustDomain: string, i: nat, ns: string): string
    requires i <= |Split(trustDomain)|
  {
    if i == 0 then "svc." + ns else "svc." + (Join(Split(trustDomain)[..i]) + "." + ns)
  }

  /** The search suffixes a client in `ns` may have appended, in the order they are tried. */
  function Searches(trustDomain: string, ns: string): (r: seq<string>)
    ensures |r| == |Split(trustDomain)| + 2
  {
    var n := |Split(trustDomain)|;
    seq(n + 1, i requires 0 <= i < n + 1 => "." + SearchName(trustDomain, i, ns)) + ["." + ns]
  }

  /** The index of the first of `suffixes` that ends `s`; their number when none does. */
  function FirstMatch(s: string, suffixes: seq<string>): (i: nat)
    ensures i <= |suffixes|
    ensures i < |suffixes| ==> HasSuffix(s, suffixes[i])
    ensures forall j :: 0 <= j < i ==> !HasSuffix(s, suffixes[j])
  {
    if suffixes == [] || HasSuffix(s, suffixes[0]) then 0
    else 1 + FirstMatch(s, suffixes[1..])
  }

  lemma {:induction false} FirstMatchUnique(s: string, suffixes: seq<string>, i: nat)
    requires i <= |suffixes|
    requires i < |suffixes| ==> HasSuffix(s, suffixes[i])
    requires forall j :: 0 <= j < i ==> !HasSuffix(s, suffixes[j])
    ensures FirstMatch(s, suffixes) == i
  {
  }

  /** What is left of the stem of an expanded name, and the namespace it was asked from. */
  function StripSearch(stem: string, trustDomain: string): (string, string) {
    var sections := Split(stem);
    if |sections| > 1 then
      var ns := sections[|sections| - 1];
      var searches := Searches(trustDomain, ns);
      var j := FirstMatch(stem, searches);
      (if j < |searches| then TrimSuffix(stem, searches[j]) else stem, ns)
    else
      (stem, "default")
  }

  /** Which search suffix fits first decides what `StripSearch` returns. */
  lemma {:induction false} StripSearchAt(stem: string, trustDomain: string, front: seq<string>, ns: string, j: nat)
    requires front != [] && Split(stem) == front + [ns]
    requires j < |Searches(trustDomain, ns)| && HasSuffix(stem, Searches(trustDomain, ns)[j])
    requires forall i :: 0 <= i < j ==> !HasSuffix(stem, Searches(trustDomain, ns)[i])
    ensures StripSearch(stem, trustDomain) == (TrimSuffix(stem, Searches(trustDomain, ns)[j]), ns)
  {
    FirstMatchUnique(stem, Searches(trustDomain, ns), j);
  }

  /** The name before search-list expansion, and the namespace the query came from. */
  function RawQName(qname: string, trustDomain: string): (string, string) {
    var suffixes := SuffixDomains(trustDomain);
    var i := FirstMatch(qname, suffixes);
    if i == |suffixes| then (TrimSuffix(qname, "."), "default")
    else
      var (name, ns) := StripSearch(TrimSuffix(qname, suffixes[i]), trustDomain);
      (TrimSuffix(name, "."), ns)
  }

  method GetSuffixDomains(trustDomain: string) returns (suffixes: seq<string>)
    ensures suffixes == SuffixDomains(trustDomain)
  {
    suffixes := [".svc." + trustDomain + "."];
    var sections := Split(trustDomain);
    for index := 0 to |sections|
      invariant suffixes == SuffixDomains(trustDomain)[..index + 1]
    {
      suffixes := suffixes + ["." + Join(sections[index..]) + "."];
    }
  }

  lemma {:induction false} SearchText(trustDomain: string, i: nat, ns: string)
    requires i <= |Split(trustDomain)|
    ensures "." + SearchName(trustDomain, i, ns) ==
      if i == 0 then ".svc." + ns else ".svc." + Join(Split(trustDomain)[..i]) + "." + ns
  {
  }

  method GetTrustDomainSearches(trustDomain: string, ns: string) returns (searches: seq<string>)
    ensures searches == Searches(trustDomain, ns)
  {
    searches := [".svc." + ns];
    SearchText(trustDomain, 0, ns);
    var sections := Split(trustDomain);
    for index := 0 to |sections|
      invariant searches == Searches(trustDomain, ns)[..index + 1]
    {
      SearchText(trustDomain, index + 1, ns);
      searches := searches + [".svc." + Join(sections[..index + 1]) + "." + ns];
    }
    searches := searches + ["." + ns];
  }

  method GetRawQName(name: string, trustDomain: string) returns (qname: string, fromNamespace: string)
    ensures (qname, fromNamespace) == RawQName(name, trustDomain)
  {
    qname, fromNamespace := name, "default";
    var suffixes := GetSuffixDomains(trustDomain);
    var i := 0;
    while i < |suffixes|
      invariant 0 <= i <= |suffixes|
      invariant qname == name && fromNamespace == "default"
      invariant forall j :: 0 <= j < i ==> !HasSuffix(name, suffixes[j])
    {
      if HasSuffix(qname, suffixes[i]) {
        FirstMatchUnique(name, suffixes, i);
        qname := TrimSuffix(qname, suffixes[i]);
        qname, fromNamespace := StripOneSearch(qname, trustDomain);
        return TrimSuffix(qname, "."), fromNamespace;
      }
      i := i + 1;
    }
    FirstMatchUnique(name, suffixes, |suffixes|);
    qname := TrimSuffix(qname, ".");
  }

  /** The inner loop of `GetRawQName`: removes the first search suffix that fits. */
  method StripOneSearch(stem: string, trustDomain: string) returns (qname: string, fromNamespace: string)
    ensures (qname, fromNamespace) == StripSearch(stem, trustDomain)
  {
    qname, fromNamespace := stem, "default";
    var sections := Split(qname);
    if |sections| > 1 {
      fromNamespace := sections[|sections| - 1];
      var searches := GetTrustDomainSearches(trustDomain, fromNamespace);
      qname := TrimFirst(qname, searches);
    }
  }

  method TrimFirst(stem: string, searches: seq<string>) returns (qname: string)
    ensures var j := FirstMatch(stem, searches);
      qname == if j < |searches| then TrimSuffix(stem, searches[j]) else stem
  {
    qname := stem;
    var j := 0;
    while j < |searches|
      invariant 0 <= j <= |searches| && qname == stem
      invariant forall l :: 0 <= l < j ==> !HasSuffix(stem, searches[l])
    {
      if HasSuffix(qname, searches[j]) {
        FirstMatchUnique(stem, searches, j);
        return TrimSuffix(qname, searches[j]);
      }
      j := j + 1;
    }
    FirstMatchUnique(stem, searches, |searches|);
  }

  // ---------------------------------------------------------------------
  // Search-list expansion and its inverse

  /** `x` expanded with `svc` and the first `k` labels of the trust domain, asked from `ns`. */
  function ExpandedStem(x: string, trustDomain: string, k: nat, ns: string): string
    requires k <= |Split(trustDomain)|
  {
    x + "." + SearchName(trustDomain, k, ns)
  }

  /** The full name the client sends after expansion. */
  function Expanded(x: string, trustDomain: string, k: nat, ns: string): string
    requires k <= |Split(trustDomain)|
  {
    ExpandedStem(x, trustDomain, k, ns) + ".svc." + trustDomain + "."
  }

  /** The labels of the `i`-th search name. */
  function SearchLabels(trustDomain: string, i: nat, ns: string): seq<string>
    requires i <= |Split(trustDomain)|
  {
    ["svc"] + Split(trustDomain)[..i] + [ns]
  }

  lemma TrimDotFree(s: string)
    requires DotFree(s)
    ensures !HasSuffix(s, ".") && TrimSuffix(s, ".") == s
  {
    assert s != "" ==> s[|s| - 1..][0] == s[|s| - 1];
  }

  lemma {:induction false} SplitService(rest: string)
    ensures Split("svc." + rest) == ["svc"] + Split(rest)
  {
    assert "svc." + rest == "svc" + "." + rest;
    SplitDotFree("svc");
    SplitDot("svc", rest);
  }

  lemma {:induction false} SplitSearchName(trustDomain: string, i: nat, ns: string)
    requires DotFree(ns) && i <= |Split(trustDomain)|
    ensures Split(SearchName(trustDomain, i, ns)) == SearchLabels(trustDomain, i, ns)
  {
    SplitDotFree(ns);
    if i == 0 {
      SplitService(ns);
    } else {
      var front := Split(trustDomain)[..i];
      SplitLabelsDotFree(trustDomain);
      SplitJoin(front);
      SplitDot(Join(front), ns);
      SplitService(Join(front) + "." + ns);
    }
  }

  /** An expanded name always carries the most specific trust-domain suffix. */
  lemma ExpandedMatchesFirst(stem: string, trustDomain: string)
    ensures RawQName(stem + ".svc." + trustDomain + ".", trustDomain) ==
      var (name, ns) := StripSearch(stem, trustDomain); (TrimSuffix(name, "."), ns)
  {
    var suffix := ".svc." + trustDomain + ".";
    var q := stem + ".svc." + trustDomain + ".";
    assert q == stem + suffix;
    TrimCat(stem, suffix);
    FirstMatchUnique(q, SuffixDomains(trustDomain), 0);
  }

  lemma {:induction false} ExpandedStemLabels(x: string, trustDomain: string, k: nat, ns: string)
    requires DotFree(ns) && k <= |Split(trustDomain)|
    ensures Split(ExpandedStem(x, trustDomain, k, ns)) == Split(x) + SearchLabels(trustDomain, k, ns)
  {
    SplitSearchName(trustDomain, k, ns);
    SplitDot(x, SearchName(trustDomain, k, ns));
  }

  /** Without an `svc` label in the trust domain, a shorter search suffix never fits first. */
  lemma {:induction false} ShorterSearchMisses(x: string, trustDomain: string, k: nat, ns: string, i: nat)
    requires DotFree(ns) && i < k <= |Split(trustDomain)| && "svc" !in Split(trustDomain)
    ensures !HasSuffix(ExpandedStem(x, trustDomain, k, ns), "." + SearchName(trustDomain, i, ns))
  {
    var stem := ExpandedStem(x, trustDomain, k, ns);
    var search := SearchName(trustDomain, i, ns);
    ExpandedStemLabels(x, trustDomain, k, ns);
    SplitSearchName(trustDomain, i, ns);
    DottedSuffixIsLabelSuffix(stem, search);
    ShorterTailMisses(Split(x), "svc", Split(trustDomain), k, i, ns);
  }

  lemma ShorterTailMisses<T>(front: seq<T>, first: T, rest: seq<T>, k: nat, i: nat, last: T)
    requires i < k <= |rest| && first !in rest
    ensures var labels := front + ([first] + rest[..k] + [last]);
      labels[|labels| - (i + 2)..] != [first] + rest[..i] + [last]
  {
    var labels := front + ([first] + rest[..k] + [last]);
    var at := |labels| - (i + 2);
    assert labels[at..][0] == labels[at] == rest[k - i - 1] != first;
  }

  lemma {:induction false} SearchEndsStem(x: string, trustDomain: string, k: nat, ns: string)
    requires k <= |Split(trustDomain)|
    ensures var search := Searches(trustDomain, ns)[k];
      HasSuffix(ExpandedStem(x, trustDomain, k, ns), search) &&
      TrimSuffix(ExpandedStem(x, trustDomain, k, ns), search) == x
  {
    var search := SearchName(trustDomain, k, ns);
    Assoc(x, ".", search);
    TrimCat(x, "." + search);
  }

  lemma {:induction false} StripUndoesExpansion(x: string, trustDomain: string, k: nat, ns: string)
    requires DotFree(ns) && k <= |Split(trustDomain)| && "svc" !in Split(trustDomain)
    ensures StripSearch(ExpandedStem(x, trustDomain, k, ns), trustDomain) == (x, ns)
  {
    var stem := ExpandedStem(x, trustDomain, k, ns);
    var front := Split(x) + (["svc"] + Split(trustDomain)[..k]);
    assert Split(stem) == front + [ns] by { ExpandedStemLabels(x, trustDomain, k, ns); }
    SearchEndsStem(x, trustDomain, k, ns);
    forall i: nat | i < k ensures !HasSuffix(stem, Searches(trustDomain, ns)[i]) {
      ShorterSearchMisses(x, trustDomain, k, ns, i);
    }
    StripSearchAt(stem, trustDomain, front, ns, k);
  }

  /** Normalisation undoes every expansion, up to one trailing dot of the original name. */
  lemma {:induction false} NormalisationUndoesExpansion(x: string, trustDomain: string, k: nat, ns: string)
    requires DotFree(ns) && k <= |Split(trustDomain)| && "svc" !in Split(trustDomain)
    ensures RawQName(Expanded(x, trustDomain, k, ns), trustDomain) == (TrimSuffix(x, "."), ns)
  {
    StripUndoesExpansion(x, trustDomain, k, ns);
    ExpandedMatchesFirst(ExpandedStem(x, trustDomain, k, ns), trustDomain);
  }

  /** The expansions that have to be undone: any name not ending in a dot, asked from any namespace. */
  predicate Expandable(x: string, trustDomain: string, k: nat, ns: string) {
    k <= |Split(trustDomain)| && DotFree(ns) && !HasSuffix(x, ".")
  }

  predicate Undone(x: string, trustDomain: string, k: nat, ns: string)
    requires k <= |Split(trustDomain)|
  {
    RawQName(Expanded(x, trustDomain, k, ns), trustDomain) == (x, ns)
  }

  ghost predicate UndoesEveryExpansion(trustDomain: string) {
    forall x: string, ns: string, k: nat ::
      Expandable(x, trustDomain, k, ns) ==> Undone(x, trustDomain, k, ns)
  }

  lemma Regroup<T>(a: seq<T>, b: T, t: seq<T>, m: nat, c: T)
    requires m < |t| && t[m] == b
    ensures a + ([b] + t[..m + 1] + [c]) == a + ([b] + t[..m]) + ([b] + t[..0] + [c])
  {
  }

  /** An `svc` label makes the shortest search suffix fit too early. */
  lemma {:induction false} ServiceLabelFitsTooEarly(x: string, trustDomain: string, m: nat, ns: string)
    requires DotFree(ns) && m < |Split(trustDomain)| && Split(trustDomain)[m] == "svc"
    ensures HasSuffix(ExpandedStem(x, trustDomain, m + 1, ns), "." + SearchName(trustDomain, 0, ns))
  {
    var stem := ExpandedStem(x, trustDomain, m + 1, ns);
    var front := Split(x) + (["svc"] + Split(trustDomain)[..m]);
    assert Split(stem) == front + Split(SearchName(trustDomain, 0, ns)) by {
      ExpandedStemLabels(x, trustDomain, m + 1, ns);
      SplitSearchName(trustDomain, 0, ns);
      Regroup(Split(x), "svc", Split(trustDomain), m, ns);
    }
    LabelsGiveDottedSuffix(stem, SearchName(trustDomain, 0, ns), front);
  }

  lemma {:induction false} ServiceLabelStrip(x: string, trustDomain: string, m: nat, ns: string)
    requires DotFree(ns) && m < |Split(trustDomain)| && Split(trustDomain)[m] == "svc"
    ensures |StripSearch(ExpandedStem(x, trustDomain, m + 1, ns), trustDomain).0| >= |x| + 4
  {
    var stem := ExpandedStem(x, trustDomain, m + 1, ns);
    var front := Split(x) + (["svc"] + Split(trustDomain)[..m + 1]);
    assert Split(stem) == front + [ns] by { ExpandedStemLabels(x, trustDomain, m + 1, ns); }
    ServiceLabelFitsTooEarly(x, trustDomain, m, ns);
    StripSearchAt(stem, trustDomain, front, ns, 0);
    ServiceStemLength(x, trustDomain, m, ns);
  }

  lemma {:induction false} ServiceStemLength(x: string, trustDomain: string, m: nat, ns: string)
    requires m < |Split(trustDomain)| && Split(trustDomain)[m] == "svc"
    ensures |ExpandedStem(x, trustDomain, m + 1, ns)| >= |x| + |Searches(trustDomain, ns)[0]| + 4
  {
    JoinEndsWith(Split(trustDomain)[..m + 1]);
  }

  /** The name is then cut short: too much of it is left over. */
  lemma {:induction false} ServiceLabelBreaksUndo(x: string, trustDomain: string, m: nat, ns: string)
    requires DotFree(ns) && m < |Split(trustDomain)| && Split(trustDomain)[m] == "svc"
    ensures !Undone(x, trustDomain, m + 1, ns)
  {
    ServiceLabelStrip(x, trustDomain, m, ns);
    ExpandedMatchesFirst(ExpandedStem(x, trustDomain, m + 1, ns), trustDomain);
  }

  /** A joined list is at least as long as its last label. */
  lemma {:induction false} JoinEndsWith(labels: seq<string>)
    requires labels != []
    ensures |Join(labels)| >= |labels[|labels| - 1]|
  {
    if |labels| > 1 { JoinEndsWith(labels[1..]); }
  }

  lemma {:induction false} ServiceLabelBreaksOne(x: string, trustDomain: string, m: nat, ns: string)
    requires DotFree(ns) && DotFree(x) && m < |Split(trustDomain)| && Split(trustDomain)[m] == "svc"
    ensures !UndoesEveryExpansion(trustDomain)
  {
    TrimDotFree(x);
    ServiceLabelBreaksUndo(x, trustDomain, m, ns);
    assert Expandable(x, trustDomain, m + 1, ns);
  }

  /** Every expansion that starts with `svc` is undone exactly when the trust domain has no label `svc`. */
  lemma {:induction false} UndoExactlyWithoutServiceLabel(trustDomain: string)
    ensures UndoesEveryExpansion(trustDomain) <==> "svc" !in Split(trustDomain)
  {
    if "svc" in Split(trustDomain) {
      var m: nat :| m < |Split(trustDomain)| && Split(trustDomain)[m] == "svc";
      ServiceLabelBreaksOne("a", trustDomain, m, "b");
    } else {
      forall x: string, ns: string, k: nat | Expandable(x, trustDomain, k, ns)
        ensures Undone(x, trustDomain, k, ns)
      {
        NormalisationUndoesExpansion(x, trustDomain, k, ns);
      }
    }
  }

  // ---------------------------------------------------------------------
  // The three search domains a client really has

  /** The labels end, after at least one other, in `svc` and leading labels of the trust domain. */
  ghost predicate LooksExpanded(labels: seq<string>, trustDomain: string) {
    exists k: nat :: k <= |Split(trustDomain)| && EndsWithLabels(labels, ["svc"] + Split(trustDomain)[..k])
  }

  lemma LabelsBefore(front: seq<string>, tail: seq<string>, last: string)
    ensures EndsWithLabels(front + [last], tail + [last]) <==> EndsWithLabels(front, tail)
  {
    var n := |front| - |tail|;
    if n >= 0 {
      assert (front + [last])[n..] == front[n..] + [last];
      if front[n..] + [last] == tail + [last] {
        assert front[n..] == (front[n..] + [last])[..|tail|] == (tail + [last])[..|tail|] == tail;
      }
    }
  }

  /** A longer search suffix fits `x.ns` exactly when the labels of `x` look expanded that far. */
  lemma {:induction false} LongSearchFits(x: string, ns: string, trustDomain: string, i: nat)
    requires DotFree(ns) && i <= |Split(trustDomain)|
    ensures HasSuffix(x + "." + ns, Searches(trustDomain, ns)[i]) <==>
      EndsWithLabels(Split(x), ["svc"] + Split(trustDomain)[..i])
  {
    SplitDot(x, ns);
    SplitDotFree(ns);
    SplitSearchName(trustDomain, i, ns);
    DottedSuffixIsLabelSuffix(x + "." + ns, SearchName(trustDomain, i, ns));
    LabelsBefore(Split(x), ["svc"] + Split(trustDomain)[..i], ns);
  }

  lemma {:induction false} NamespaceStem(x: string, ns: string)
    requires DotFree(ns)
    ensures Split(x + "." + ns) == Split(x) + [ns]
  {
    SplitDot(x, ns);
    SplitDotFree(ns);
  }

  /** A name that does not look expanded loses just the namespace. */
  lemma {:induction false} StripPlain(x: string, ns: string, trustDomain: string)
    requires DotFree(ns) && !LooksExpanded(Split(x), trustDomain)
    ensures StripSearch(x + "." + ns, trustDomain) == (x, ns)
  {
    var stem, searches, n := x + "." + ns, Searches(trustDomain, ns), |Split(trustDomain)|;
    NamespaceStem(x, ns);
    forall i: nat | i < n + 1 ensures !HasSuffix(stem, searches[i]) { LongSearchFits(x, ns, trustDomain, i); }
    Assoc(x, ".", ns);
    TrimCat(x, "." + ns);
    StripSearchAt(stem, trustDomain, Split(x), ns, n + 1);
  }

  /** Of a name that looks expanded at least `.svc` goes as well. */
  lemma {:induction false} StripLooksExpanded(x: string, ns: string, trustDomain: string)
    requires DotFree(ns) && LooksExpanded(Split(x), trustDomain)
    ensures var (name, from) := StripSearch(x + "." + ns, trustDomain); from == ns && |name| + 4 <= |x|
  {
    var stem, searches := x + "." + ns, Searches(trustDomain, ns);
    NamespaceStem(x, ns);
    var k: nat :| k <= |Split(trustDomain)| && EndsWithLabels(Split(x), ["svc"] + Split(trustDomain)[..k]);
    LongSearchFits(x, ns, trustDomain, k);
    var j := FirstMatch(stem, searches);
    assert j <= k;
    SearchIsLong(trustDomain, j, ns);
    StripSearchAt(stem, trustDomain, Split(x), ns, j);
  }

  lemma {:induction false} SearchIsLong(trustDomain: string, i: nat, ns: string)
    requires i <= |Split(trustDomain)|
    ensures |Searches(trustDomain, ns)[i]| >= |ns| + 5
  {
  }

  /** The first search domain, `ns.svc.TD`: a name is undone exactly when it does not itself end like
      an expanded one. */
  lemma {:induction false} NamespaceSearchUndoneExactly(x: string, ns: string, trustDomain: string)
    requires DotFree(ns)
    ensures RawQName(x + "." + ns + ".svc." + trustDomain + ".", trustDomain) == (TrimSuffix(x, "."), ns) <==>
      !LooksExpanded(Split(x), trustDomain)
  {
    if LooksExpanded(Split(x), trustDomain) {
      StripLooksExpanded(x, ns, trustDomain);
    } else {
      StripPlain(x, ns, trustDomain);
    }
    ExpandedMatchesFirst(x + "." + ns, trustDomain);
  }

  lemma StripShortens(front: string, ns: string, trustDomain: string)
    requires DotFree(ns)
    ensures |StripSearch(front + "." + ns, trustDomain).0| <= |front|
  {
    if LooksExpanded(Split(front), trustDomain) {
      StripLooksExpanded(front, ns, trustDomain);
    } else {
      StripPlain(front, ns, trustDomain);
    }
  }

  lemma EndsInLastLabel(front: string, ns: string)
    ensures ns == "" ==> HasSuffix(front + "." + ns, ".")
  {
    if ns == "" { TrimCat(front, "."); assert front + "." + ns == front + "."; }
  }

  /** Stripping a name itself takes its last label for the namespace. */
  lemma {:induction false} StripTakesLastLabel(x: string, trustDomain: string)
    requires !HasSuffix(x, ".") && |Split(x)| > 1
    ensures |StripSearch(x, trustDomain).0| + 1 < |x|
  {
    var front, ns := CutLastLabel(x);
    StripLosesLabel(front, ns, trustDomain);
  }

  lemma CutLastLabel(x: string) returns (front: string, ns: string)
    requires |Split(x)| > 1
    ensures x == front + "." + ns && DotFree(ns)
  {
    var labels := Split(x);
    front, ns := Join(labels[..|labels| - 1]), labels[|labels| - 1];
    JoinFrontLabels(x);
    SplitLabelsDotFree(x);
  }

  lemma StripLosesLabel(front: string, ns: string, trustDomain: string)
    requires DotFree(ns) && !HasSuffix(front + "." + ns, ".")
    ensures |StripSearch(front + "." + ns, trustDomain).0| + 1 < |front + "." + ns|
  {
    EndsInLastLabel(front, ns);
    StripShortens(front, ns, trustDomain);
  }

  lemma {:induction false} JoinFrontLabels(x: string)
    requires |Split(x)| > 1
    ensures var labels := Split(x); x == Join(labels[..|labels| - 1]) + "." + labels[|labels| - 1]
  {
    var labels := Split(x);
    var n := |labels| - 1;
    assert labels == labels[..n] + [labels[n]];
    JoinCat(labels[..n], [labels[n]]);
    JoinSplit(x);
  }

  /** The second search domain, `svc.TD`, is undone for single labels only: of any other name the
      last label is taken for the namespace. */
  lemma {:induction false} ServiceSearchUndoneExactly(x: string, trustDomain: string)
    requires !HasSuffix(x, ".")
    ensures RawQName(x + ".svc." + trustDomain + ".", trustDomain).0 == x <==> |Split(x)| == 1
  {
    if |Split(x)| > 1 { StripTakesLastLabel(x, trustDomain); }
    ExpandedMatchesFirst(x, trustDomain);
  }

  /** A name ends in `.svc` and a tail only if, without the tail, it ends in `.svc`. */
  lemma ServiceBeforeTail(x: string, tail: string) returns (y: string)
    requires HasSuffix(x + tail, ".svc" + tail)
    ensures x == y + ".svc"
  {
    var q := x + tail;
    y := q[..|q| - |".svc" + tail|];
    assert q == y + (".svc" + tail);
    Assoc(y, ".svc", tail);
    CancelTail(x, y + ".svc", tail);
  }

  /** The third search domain after a name that ends in `.svc` looks like the second. */
  lemma DomainAfterService(y: string, trustDomain: string)
    ensures |RawQName(y + ".svc." + trustDomain + ".", trustDomain).0| <= |y|
  {
    ExpandedMatchesFirst(y, trustDomain);
    if |Split(y)| > 1 {
      var front, ns := CutLastLabel(y);
      StripShortens(front, ns, trustDomain);
    }
  }

  lemma DomainAlone(x: string, trustDomain: string)
    requires !HasSuffix(x + ("." + trustDomain + "."), ".svc" + ("." + trustDomain + "."))
    ensures RawQName(x + ("." + trustDomain + "."), trustDomain).0 == TrimSuffix(StripSearch(x, trustDomain).0, ".")
  {
    var domain := "." + trustDomain + ".";
    FirstSuffixes(trustDomain, domain);
    TrimCat(x, domain);
    RawAtSecond(x + domain, x, trustDomain);
  }

  lemma FirstSuffixes(trustDomain: string, domain: string)
    requires domain == "." + trustDomain + "."
    ensures SuffixDomains(trustDomain)[0] == ".svc" + domain && SuffixDomains(trustDomain)[1] == domain
  {
    JoinSplit(trustDomain);
    assert Split(trustDomain)[0..] == Split(trustDomain);
  }

  lemma RawAtSecond(q: string, stem: string, trustDomain: string)
    requires var suffixes := SuffixDomains(trustDomain);
      !HasSuffix(q, suffixes[0]) && HasSuffix(q, suffixes[1]) && TrimSuffix(q, suffixes[1]) == stem
    ensures RawQName(q, trustDomain).0 == TrimSuffix(StripSearch(stem, trustDomain).0, ".")
  {
    FirstMatchUnique(q, SuffixDomains(trustDomain), 1);
  }

  lemma {:induction false} DomainAfterServiceName(x: string, y: string, trustDomain: string)
    requires x == y + ".svc"
    ensures |Split(x)| > 1 && |RawQName(x + ("." + trustDomain + "."), trustDomain).0| < |x|
  {
    assert x + ("." + trustDomain + ".") == y + ".svc." + trustDomain + ".";
    DomainAfterService(y, trustDomain);
    assert x == y + "." + "svc";
    SplitDot(y, "svc");
  }

  /** The third search domain, `TD`, likewise. */
  lemma {:induction false} DomainSearchUndoneExactly(x: string, trustDomain: string)
    requires !HasSuffix(x, ".")
    ensures RawQName(x + ("." + trustDomain + "."), trustDomain).0 == x <==> |Split(x)| == 1
  {
    var domain := "." + trustDomain + ".";
    if HasSuffix(x + domain, ".svc" + domain) {
      var y := ServiceBeforeTail(x, domain);
      DomainAfterServiceName(x, y, trustDomain);
    } else {
      DomainAlone(x, trustDomain);
      if |Split(x)| > 1 { StripTakesLastLabel(x, trustDomain); }
    }
  }

  lemma CancelTail(a: string, b: string, tail: string)
    requires a + tail == b + tail
    ensures a == b
  {
    assert a == (a + tail)[..|a + tail| - |tail|] == (b + tail)[..|b + tail| - |tail|] == b;
  }

  // ---------------------------------------------------------------------
  // Question rewriting

  datatype Question = Question(name: string, qtype: nat, qclass: nat)

  function InClusterName(svc: string, ns: string, trustDomain: string): string {
    svc + "." + ns + ".svc." + trustDomain + "."
  }

  /** The two branches that rewrite to a name of the cluster. */
  predicate IsInCluster(name: string, trustDomain: string, namespaces: set<string>) {
    var segs := Split(RawQName(name, trustDomain).0);
    |segs| == 1 || (|segs| == 2 && segs[1] in namespaces)
  }

  /** The name sent upstream for a question about `name`. */
  function Rewrite(name: string, trustDomain: string, namespaces: set<string>): string {
    var (qname, ns) := RawQName(name, trustDomain);
    var segs := Split(qname);
    if |segs| == 1 then InClusterName(segs[0], ns, trustDomain)
    else if |segs| > 2 then qname + "."
    else if segs[1] in namespaces then InClusterName(segs[0], segs[1], trustDomain)
    else qname + "."
  }

  /** The question loop of `do`: rewrites in place and hands back the questions as asked. */
  method RewriteQuestions(questions: array<Question>, trustDomain: string, namespaces: set<string>)
    returns (original: seq<Question>)
    modifies questions
    ensures original == old(questions[..])
    ensures forall i :: 0 <= i < questions.Length ==>
      questions[i] == original[i].(name := Rewrite(original[i].name, trustDomain, namespaces))
  {
    original := [];
    for index := 0 to questions.Length
      invariant original == old(questions[..index])
      invariant forall i :: index <= i < questions.Length ==> questions[i] == old(questions[i])
      invariant forall i :: 0 <= i < index ==>
        questions[i] == original[i].(name := Rewrite(original[i].name, trustDomain, namespaces))
    {
      var q := questions[index];
      original := original + [q];
      var qname, fromNamespace := GetRawQName(q.name, trustDomain);
      var segs := Split(qname);
      var name;
      if |segs| == 1 {
        name := InClusterName(segs[0], fromNamespace, trustDomain);
      } else if |segs| > 2 {
        name := qname + ".";
      } else if segs[1] in namespaces {
        name := InClusterName(segs[0], segs[1], trustDomain);
      } else {
        name := qname + ".";
      }
      questions[index] := q.(name := name);
    }
  }

  lemma StripInCluster(svc: string, ns: string, trustDomain: string)
    requires DotFree(svc) && DotFree(ns)
    ensures StripSearch(svc + "." + ns, trustDomain) == (svc, ns)
  {
    SplitDotFree(svc);
    StripPlain(svc, ns, trustDomain);
  }

  /** A name of the cluster parses back to its service and namespace. */
  lemma InClusterNameParses(svc: string, ns: string, trustDomain: string)
    requires DotFree(svc) && DotFree(ns)
    ensures RawQName(InClusterName(svc, ns, trustDomain), trustDomain) == (svc, ns)
  {
    StripInCluster(svc, ns, trustDomain);
    ExpandedMatchesFirst(svc + "." + ns, trustDomain);
    TrimDotFree(svc);
  }

  lemma RawNamespaceDotFree(name: string, trustDomain: string)
    ensures DotFree(RawQName(name, trustDomain).1)
  {
    var suffixes := SuffixDomains(trustDomain);
    var i := FirstMatch(name, suffixes);
    if i < |suffixes| { SplitLabelsDotFree(TrimSuffix(name, suffixes[i])); }
  }

  /** Rewriting a question into the cluster is idempotent. */
  lemma InClusterRewriteIsFixedPoint(name: string, trustDomain: string, namespaces: set<string>)
    requires IsInCluster(name, trustDomain, namespaces)
    ensures var r := Rewrite(name, trustDomain, namespaces);
      IsInCluster(r, trustDomain, namespaces) && Rewrite(r, trustDomain, namespaces) == r
  {
    var (qname, ns) := RawQName(name, trustDomain);
    var segs := Split(qname);
    SplitLabelsDotFree(qname);
    RawNamespaceDotFree(name, trustDomain);
    var target := if |segs| == 1 then ns else segs[1];
    InClusterNameParses(segs[0], target, trustDomain);
    SplitDotFree(segs[0]);
  }

  /** All expansions of one service name are sent upstream as one and the same name. */
  lemma {:induction false} ExpansionsShareOneUpstreamName(svc: string, trustDomain: string, k: nat, ns: string,
                                                          namespaces: set<string>)
    requires DotFree(svc) && DotFree(ns) && k <= |Split(trustDomain)| && "svc" !in Split(trustDomain)
    ensures Rewrite(Expanded(svc, trustDomain, k, ns), trustDomain, namespaces) == InClusterName(svc, ns, trustDomain)
  {
    NormalisationUndoesExpansion(svc, trustDomain, k, ns);
    TrimDotFree(svc);
    RewriteOneLabel(Expanded(svc, trustDomain, k, ns), svc, ns, trustDomain, namespaces);
  }

  lemma RewriteOneLabel(name: string, svc: string, ns: string, trustDomain: string, namespaces: set<string>)
    requires DotFree(svc) && RawQName(name, trustDomain) == (svc, ns)
    ensures Rewrite(name, trustDomain, namespaces) == InClusterName(svc, ns, trustDomain)
  {
    SplitDotFree(svc);
  }

  /** The name ends in no suffix that marks it as expanded. */
  predicate Unmarked(name: string, trustDomain: string) {
    FirstMatch(name, SuffixDomains(trustDomain)) == |SuffixDomains(trustDomain)|
  }

  /** A fully qualified name that was not expanded and does not name a service and one of the namespaces. */
  predicate Foreign(name: string, trustDomain: string, namespaces: set<string>) {
    Unmarked(name, trustDomain) && HasSuffix(name, ".") &&
    var labels := Split(TrimSuffix(name, "."));
    |labels| > 2 || (|labels| == 2 && labels[1] !in namespaces)
  }

  /** The name of some service in some namespace of the cluster. */
  ghost predicate NamesService(name: string, trustDomain: string) {
    exists svc, ns :: DotFree(svc) && DotFree(ns) && name == InClusterName(svc, ns, trustDomain)
  }

  lemma MarkedNameShortens(name: string, trustDomain: string)
    requires !Unmarked(name, trustDomain)
    ensures |RawQName(name, trustDomain).0| + 2 <= |name|
  {
    var suffixes := SuffixDomains(trustDomain);
    var i := FirstMatch(name, suffixes);
    assert |suffixes[i]| >= 2;
    assert |TrimSuffix(name, suffixes[i])| + 2 <= |name|;
  }

  lemma InClusterNamesService(name: string, trustDomain: string, namespaces: set<string>)
    requires IsInCluster(name, trustDomain, namespaces)
    ensures NamesService(Rewrite(name, trustDomain, namespaces), trustDomain)
  {
    SplitLabelsDotFree(RawQName(name, trustDomain).0);
    RawNamespaceDotFree(name, trustDomain);
  }

  /** A question goes upstream as asked exactly when it names a service of the cluster or is foreign to it. */
  lemma UnchangedExactly(name: string, trustDomain: string, namespaces: set<string>)
    ensures Rewrite(name, trustDomain, namespaces) == name <==>
      NamesService(name, trustDomain) || Foreign(name, trustDomain, namespaces)
  {
    if NamesService(name, trustDomain) {
      var svc, ns :| DotFree(svc) && DotFree(ns) && name == InClusterName(svc, ns, trustDomain);
      InClusterNameParses(svc, ns, trustDomain);
      RewriteOneLabel(name, svc, ns, trustDomain, namespaces);
    } else if IsInCluster(name, trustDomain, namespaces) {
      InClusterNamesService(name, trustDomain, namespaces);
    } else if Unmarked(name, trustDomain) {
      DottedAgain(name);
    } else {
      MarkedNameShortens(name, trustDomain);
    }
  }

  lemma DottedAgain(name: string)
    ensures TrimSuffix(name, ".") + "." == name <==> HasSuffix(name, ".")
  {
    if TrimSuffix(name, ".") + "." == name { TrimCat(TrimSuffix(name, "."), "."); }
  }

  // ---------------------------------------------------------------------
  // Which names are taken for expanded ones

  function LastLabel(s: string): string {
    Split(s)[|Split(s)| - 1]
  }

  /** The labels a name ends in, when the `i`-th suffix marks it. */
  function SuffixLabels(trustDomain: string, i: nat): seq<string>
    requires i <= |Split(trustDomain)|
  {
    if i == 0 then ["svc"] + Split(trustDomain) else Split(trustDomain)[i - 1..]
  }

  lemma EndsInDot(x: string, t: string)
    ensures HasSuffix(x + ".", "." + t + ".") <==> HasSuffix(x, "." + t)
  {
    var n := |x| - |"." + t|;
    if n >= 0 {
      assert (x + ".")[n..] == x[n..] + ".";
      if x[n..] + "." == "." + t + "." { CancelTail(x[n..], "." + t, "."); }
    }
  }

  /** The text of the `i`-th suffix. */
  lemma {:induction false} SuffixText(trustDomain: string, i: nat, t: string)
    requires i <= |Split(trustDomain)|
    requires t == if i == 0 then "svc." + trustDomain else Join(Split(trustDomain)[i - 1..])
    ensures SuffixDomains(trustDomain)[i] == "." + t + "."
  {
  }

  lemma {:induction false} SuffixSplits(trustDomain: string, i: nat, t: string)
    requires i <= |Split(trustDomain)|
    requires t == if i == 0 then "svc." + trustDomain else Join(Split(trustDomain)[i - 1..])
    ensures Split(t) == SuffixLabels(trustDomain, i)
  {
    if i == 0 {
      SplitService(trustDomain);
    } else {
      SplitLabelsDotFree(trustDomain);
      SplitJoin(Split(trustDomain)[i - 1..]);
    }
  }

  /** A suffix fits exactly when the labels before the final dot end in its labels, after one other. */
  lemma {:induction false} SuffixFits(x: string, trustDomain: string, i: nat)
    requires i <= |Split(trustDomain)|
    ensures HasSuffix(x + ".", SuffixDomains(trustDomain)[i]) <==>
      EndsWithLabels(Split(x), SuffixLabels(trustDomain, i))
  {
    var t := if i == 0 then "svc." + trustDomain else Join(Split(trustDomain)[i - 1..]);
    SuffixText(trustDomain, i, t);
    SuffixSplits(trustDomain, i, t);
    EndsInDot(x, t);
    DottedSuffixIsLabelSuffix(x, t);
  }

  lemma EndsInLast(labels: seq<string>, tail: seq<string>, last: string)
    requires EndsWithLabels(labels, tail) && tail != [] && tail[|tail| - 1] == last
    ensures |labels| > 1 && labels[|labels| - 1] == last
  {
    assert labels[|labels| - |tail|..][|tail| - 1] == labels[|labels| - 1];
  }

  lemma {:induction false} SuffixEndsInLast(x: string, trustDomain: string, i: nat)
    requires i <= |Split(trustDomain)| && HasSuffix(x + ".", SuffixDomains(trustDomain)[i])
    ensures |Split(x)| > 1 && LastLabel(x) == LastLabel(trustDomain)
  {
    SuffixFits(x, trustDomain, i);
    SuffixLabelsEnd(trustDomain, i);
    EndsInLast(Split(x), SuffixLabels(trustDomain, i), LastLabel(trustDomain));
  }

  lemma {:induction false} SuffixLabelsEnd(trustDomain: string, i: nat)
    requires i <= |Split(trustDomain)|
    ensures var labels := SuffixLabels(trustDomain, i); labels != [] && labels[|labels| - 1] == LastLabel(trustDomain)
  {
  }

  lemma {:induction false} LastLabelMarks(x: string, trustDomain: string)
    requires |Split(x)| > 1 && LastLabel(x) == LastLabel(trustDomain)
    ensures HasSuffix(x + ".", SuffixDomains(trustDomain)[|Split(trustDomain)|])
  {
    var n := |Split(trustDomain)|;
    SuffixFits(x, trustDomain, n);
    assert SuffixLabels(trustDomain, n) == [LastLabel(trustDomain)];
    assert Split(x)[|Split(x)| - 1..] == [LastLabel(x)];
  }

  /** A name is taken for an expanded one exactly when it ends in the last label of the trust domain. */
  lemma {:induction false} MarkedExactly(x: string, trustDomain: string)
    ensures !Unmarked(x + ".", trustDomain) <==> |Split(x)| > 1 && LastLabel(x) == LastLabel(trustDomain)
  {
    if |Split(x)| > 1 && LastLabel(x) == LastLabel(trustDomain) {
      LastLabelMarks(x, trustDomain);
    } else if !Unmarked(x + ".", trustDomain) {
      SuffixEndsInLast(x, trustDomain, FirstMatch(x + ".", SuffixDomains(trustDomain)));
    }
  }

  lemma LongerTailMisses<T>(front: seq<T>, all: seq<T>, i: nat, j: nat)
    requires front != [] && 0 < j <= i < |all| && front[|front| - 1] != all[i - 1]
    ensures var labels := front + all[i..]; var tail := all[j - 1..];
      |tail| < |labels| ==> labels[|labels| - |tail|..] != tail
  {
    var labels, tail := front + all[i..], all[j - 1..];
    if |tail| < |labels| {
      var at := |front| - 1 - (|labels| - |tail|);
      assert labels[|labels| - |tail|..][at] == front[|front| - 1];
      assert tail[at] == all[i - 1];
    }
  }

  lemma ServiceTailMisses<T>(front: seq<T>, all: seq<T>, i: nat, service: T)
    requires front != [] && 0 < i < |all| && front[|front| - 1] != all[i - 1]
    ensures var labels := front + all[i..]; var tail := [service] + all;
      |tail| < |labels| ==> labels[|labels| - |tail|..] != tail
  {
    var labels, tail := front + all[i..], [service] + all;
    if |tail| < |labels| {
      var at := |front| - 1 - (|labels| - |tail|);
      assert labels[|labels| - |tail|..][at] == front[|front| - 1];
      assert tail[at] == all[i - 1];
    }
  }

  lemma {:induction false} TailLabels(x: string, trustDomain: string, i: nat)
    requires i < |Split(trustDomain)|
    ensures Split(x + "." + Join(Split(trustDomain)[i..])) == Split(x) + Split(trustDomain)[i..]
  {
    SplitLabelsDotFree(trustDomain);
    SplitJoin(Split(trustDomain)[i..]);
    SplitDot(x, Join(Split(trustDomain)[i..]));
  }

  lemma {:induction false} LongerSuffixMisses(x: string, trustDomain: string, i: nat, j: nat)
    requires 0 < i < |Split(trustDomain)| && j <= i && LastLabel(x) != Split(trustDomain)[i - 1]
    ensures !HasSuffix(x + "." + Join(Split(trustDomain)[i..]) + ".", SuffixDomains(trustDomain)[j])
  {
    TailLabels(x, trustDomain, i);
    TailMisses(Split(x), trustDomain, i, j);
    SuffixFits(x + "." + Join(Split(trustDomain)[i..]), trustDomain, j);
  }

  lemma {:induction false} TailMisses(front: seq<string>, trustDomain: string, i: nat, j: nat)
    requires front != [] && 0 < i < |Split(trustDomain)| && j <= i && front[|front| - 1] != Split(trustDomain)[i - 1]
    ensures !EndsWithLabels(front + Split(trustDomain)[i..], SuffixLabels(trustDomain, j))
  {
    if j == 0 {
      ServiceTailMisses(front, Split(trustDomain), i, "svc");
    } else {
      LongerTailMisses(front, Split(trustDomain), i, j);
    }
  }

  /** The longest tail of the trust domain that a name ends in is what it loses. */
  lemma {:induction false} LongestTailStripped(x: string, trustDomain: string, i: nat)
    requires 0 < i < |Split(trustDomain)| && LastLabel(x) != Split(trustDomain)[i - 1]
    ensures RawQName(x + "." + Join(Split(trustDomain)[i..]) + ".", trustDomain) ==
      var (name, ns) := StripSearch(x, trustDomain); (TrimSuffix(name, "."), ns)
  {
    var tail := Join(Split(trustDomain)[i..]);
    forall j: nat | j < i + 1 ensures !HasSuffix(x + "." + tail + ".", SuffixDomains(trustDomain)[j]) {
      LongerSuffixMisses(x, trustDomain, i, j);
    }
    SuffixText(trustDomain, i + 1, tail);
    RawAt(x, tail, trustDomain, i + 1);
  }

  lemma {:induction false} RawAt(x: string, tail: string, trustDomain: string, i: nat)
    requires i <= |Split(trustDomain)| && SuffixDomains(trustDomain)[i] == "." + tail + "."
    requires forall j :: 0 <= j < i ==> !HasSuffix(x + "." + tail + ".", SuffixDomains(trustDomain)[j])
    ensures RawQName(x + "." + tail + ".", trustDomain) ==
      var (name, ns) := StripSearch(x, trustDomain); (TrimSuffix(name, "."), ns)
  {
    var q := x + "." + tail + ".";
    assert q == x + ("." + tail + ".");
    TrimCat(x, "." + tail + ".");
    RawAtSuffix(q, x, trustDomain, i);
  }

  lemma RawAtSuffix(q: string, stem: string, trustDomain: string, i: nat)
    requires var suffixes := SuffixDomains(trustDomain);
      i < |suffixes| && HasSuffix(q, suffixes[i]) && TrimSuffix(q, suffixes[i]) == stem &&
      forall j :: 0 <= j < i ==> !HasSuffix(q, suffixes[j])
    ensures RawQName(q, trustDomain) == var (name, ns) := StripSearch(stem, trustDomain); (TrimSuffix(name, "."), ns)
  {
    FirstMatchUnique(q, SuffixDomains(trustDomain), i);
  }

  // ---------------------------------------------------------------------
  // What two labels stand for

  lemma RewriteTwoLabels(name: string, svc: string, ns: string, from: string, trustDomain: string,
                         namespaces: set<string>)
    requires DotFree(svc) && DotFree(ns) && RawQName(name, trustDomain) == (svc + "." + ns, from)
    ensures Rewrite(name, trustDomain, namespaces) ==
      if ns in namespaces then svc + "." + ns + ".svc." + trustDomain + "." else svc + "." + ns + "."
  {
    SplitDot(svc, ns);
    SplitDotFree(svc);
    SplitDotFree(ns);
  }

  lemma NoDotAtEnd(svc: string, ns: string)
    requires DotFree(ns) && ns != ""
    ensures !HasSuffix(svc + "." + ns, ".") && TrimSuffix(svc + "." + ns, ".") == svc + "." + ns
  {
    var x := svc + "." + ns;
    assert x[|x| - 1] == ns[|ns| - 1];
    assert x[|x| - 1..][0] == x[|x| - 1];
  }

  lemma {:induction false} TwoLabels(svc: string, ns: string)
    requires DotFree(svc) && DotFree(ns)
    ensures Split(svc + "." + ns) == [svc, ns]
  {
    SplitDot(svc, ns);
    SplitDotFree(svc);
    SplitDotFree(ns);
  }

  /** `svc.ns.`, asked in full, is the service of that namespace, unless the namespace is called like the
      last label of the trust domain; then the name is taken for an expanded one, and means `default`. */
  lemma FullTwoLabelName(svc: string, ns: string, trustDomain: string, namespaces: set<string>)
    requires DotFree(svc) && DotFree(ns) && ns != "" && ns in namespaces
    ensures Rewrite(svc + "." + ns + ".", trustDomain, namespaces) ==
      svc + "." + (if ns == LastLabel(trustDomain) then "default" else ns) + ".svc." + trustDomain + "."
  {
    var x := svc + "." + ns;
    TwoLabels(svc, ns);
    MarkedExactly(x, trustDomain);
    if ns == LastLabel(trustDomain) {
      LastTailStripped(svc, ns, trustDomain);
      RewriteOneLabel(x + ".", svc, "default", trustDomain, namespaces);
    } else {
      TrimCat(x, ".");
      RewriteTwoLabels(x + ".", svc, ns, "default", trustDomain, namespaces);
    }
  }

  lemma LastTailStripped(svc: string, ns: string, trustDomain: string)
    requires DotFree(svc) && DotFree(ns) && ns == LastLabel(trustDomain)
    ensures RawQName(svc + "." + ns + ".", trustDomain) == (svc, "default")
  {
    var n := |Split(trustDomain)|;
    TwoLabels(svc, ns);
    forall j: nat | j < n ensures !HasSuffix(svc + "." + ns + ".", SuffixDomains(trustDomain)[j]) {
      SuffixFits(svc + "." + ns, trustDomain, j);
    }
    assert Split(trustDomain)[n - 1..] == [ns];
    SuffixText(trustDomain, n, ns);
    RawAt(svc, ns, trustDomain, n);
    SplitDotFree(svc);
    TrimDotFree(svc);
  }

  lemma LooksExpandedTwoLabels(svc: string, ns: string, trustDomain: string)
    ensures LooksExpanded([svc, ns], trustDomain) <==> ns == "svc"
  {
    var all := Split(trustDomain);
    assert ["svc"] + all[..0] == ["svc"] && [svc, ns][1..] == [ns];
    if LooksExpanded([svc, ns], trustDomain) {
      var k: nat :| k <= |all| && EndsWithLabels([svc, ns], ["svc"] + all[..k]);
      assert k == 0;
    }
  }

  /** `svc.ns` as a client in `from` expands it with its first search domain: the namespace in the name
      counts, not the one that asks, unless it is called `svc`. */
  lemma NamespaceSearchKeepsNamespace(svc: string, ns: string, from: string, trustDomain: string,
                                      namespaces: set<string>)
    requires DotFree(svc) && DotFree(ns) && ns != "" && DotFree(from) && ns in namespaces
    ensures Rewrite(svc + "." + ns + "." + from + ".svc." + trustDomain + ".", trustDomain, namespaces) ==
      svc + "." + (if ns == "svc" then from else ns) + ".svc." + trustDomain + "."
  {
    var x := svc + "." + ns;
    var name := x + "." + from + ".svc." + trustDomain + ".";
    TwoLabels(svc, ns);
    LooksExpandedTwoLabels(svc, ns, trustDomain);
    NamespaceSearchUndoneExactly(x, from, trustDomain);
    NoDotAtEnd(svc, ns);
    if ns == "svc" {
      ServiceNamespaceStripped(svc, from, trustDomain);
      RewriteOneLabel(name, svc, from, trustDomain, namespaces);
    } else {
      RewriteTwoLabels(name, svc, ns, from, trustDomain, namespaces);
    }
  }

  lemma ServiceNamespaceStripped(svc: string, from: string, trustDomain: string)
    requires DotFree(svc) && DotFree(from)
    ensures RawQName(svc + "." + "svc" + "." + from + ".svc." + trustDomain + ".", trustDomain) == (svc, from)
  {
    var stem := svc + "." + "svc" + "." + from;
    NamespaceStem(svc + "." + "svc", from);
    assert stem == svc + (".svc." + from) && Searches(trustDomain, from)[0] == ".svc." + from;
    TrimCat(svc, ".svc." + from);
    StripSearchAt(stem, trustDomain, Split(svc + "." + "svc"), from, 0);
    ExpandedMatchesFirst(stem, trustDomain);
    TrimDotFree(svc);
  }

  lemma ServiceLabelBefore(svc: string, ns: string, domain: string)
    requires DotFree(svc) && DotFree(ns)
    ensures HasSuffix(svc + "." + ns + domain, ".svc" + domain) ==> ns == "svc"
  {
    var x := svc + "." + ns;
    if HasSuffix(x + domain, ".svc" + domain) {
      var y := ServiceBeforeTail(x, domain);
      assert x == y + "." + "svc";
      SplitDot(y, "svc");
      SplitDotFree("svc");
      TwoLabels(svc, ns);
      assert (Split(y) + ["svc"])[|Split(y)|] == "svc";
    }
  }

  /** Of `svc.ns.TD.` the trust domain goes, and the namespace is taken for that of the client. */
  lemma DomainTwoLabels(svc: string, ns: string, trustDomain: string)
    requires DotFree(svc) && DotFree(ns) && ns != "svc"
    ensures RawQName(svc + "." + ns + ("." + trustDomain + "."), trustDomain) == (svc, ns)
  {
    var x, domain := svc + "." + ns, "." + trustDomain + ".";
    ServiceLabelBefore(svc, ns, domain);
    FirstSuffixes(trustDomain, domain);
    TrimCat(x, domain);
    FirstMatchUnique(x + domain, SuffixDomains(trustDomain), 1);
    StripInCluster(svc, ns, trustDomain);
    TrimDotFree(svc);
  }

  lemma DomainServiceLabel(svc: string, trustDomain: string)
    requires DotFree(svc)
    ensures RawQName(svc + "." + "svc" + ("." + trustDomain + "."), trustDomain) == (svc, "default")
  {
    assert svc + "." + "svc" + ("." + trustDomain + ".") == svc + ".svc." + trustDomain + ".";
    ExpandedMatchesFirst(svc, trustDomain);
    SplitDotFree(svc);
    TrimDotFree(svc);
  }

  /** The second search domain gives the name of the service, which stays; the third, `svc.ns.TD.`, is
      rewritten to it, unless the namespace is called `svc`. */
  lemma DomainSearchKeepsNamespace(svc: string, ns: string, trustDomain: string, namespaces: set<string>)
    requires DotFree(svc) && DotFree(ns)
    ensures var full := svc + "." + ns + ".svc." + trustDomain + ".";
      Rewrite(full, trustDomain, namespaces) == full
    ensures Rewrite(svc + "." + ns + ("." + trustDomain + "."), trustDomain, namespaces) ==
      svc + "." + (if ns == "svc" then "default" else ns) + ".svc." + trustDomain + "."
  {
    var name := svc + "." + ns + ("." + trustDomain + ".");
    InClusterNameParses(svc, ns, trustDomain);
    RewriteOneLabel(InClusterName(svc, ns, trustDomain), svc, ns, trustDomain, namespaces);
    if ns == "svc" {
      DomainServiceLabel(svc, trustDomain);
      RewriteOneLabel(name, svc, "default", trustDomain, namespaces);
    } else {
      DomainTwoLabels(svc, ns, trustDomain);
      RewriteOneLabel(name, svc, ns, trustDomain, namespaces);
    }
  }

  /** All longer expansions of `svc.ns`, whatever namespace asks, are sent upstream as its one name. */
  lemma {:induction false} ExpansionsKeepNamespace(svc: string, ns: string, from: string, trustDomain: string, k: nat,
                                namespaces: set<string>)
    requires DotFree(svc) && DotFree(ns) && ns != "" && DotFree(from) && ns in namespaces
    requires k <= |Split(trustDomain)| && "svc" !in Split(trustDomain)
    ensures Rewrite(Expanded(svc + "." + ns, trustDomain, k, from), trustDomain, namespaces) ==
      svc + "." + ns + ".svc." + trustDomain + "."
  {
    NormalisationUndoesExpansion(svc + "." + ns, trustDomain, k, from);
    NoDotAtEnd(svc, ns);
    RewriteTwoLabels(Expanded(svc + "." + ns, trustDomain, k, from), svc, ns, from, trustDomain, namespaces);
  }

  /** Three or more labels, or two of which the second is no namespace. */
  predicate Outside(x: string, namespaces: set<string>) {
    |Split(x)| > 2 || (|Split(x)| == 2 && Split(x)[1] !in namespaces)
  }

  lemma RewriteOutside(name: string, x: string, from: string, trustDomain: string, namespaces: set<string>)
    requires RawQName(name, trustDomain) == (x, from) && Outside(x, namespaces)
    ensures Rewrite(name, trustDomain, namespaces) == x + "."
  {
  }

  /** A name from outside the cluster loses its expansion: it is sent upstream as it was asked for,
      with a final dot. */
  lemma {:induction false} ExpansionOfOutsideName(x: string, from: string, trustDomain: string, k: nat,
                                                  namespaces: set<string>)
    requires Outside(x, namespaces) && !HasSuffix(x, ".") && DotFree(from)
    ensures !LooksExpanded(Split(x), trustDomain) ==>
      Rewrite(x + "." + from + ".svc." + trustDomain + ".", trustDomain, namespaces) == x + "."
    ensures k <= |Split(trustDomain)| && "svc" !in Split(trustDomain) ==>
      Rewrite(Expanded(x, trustDomain, k, from), trustDomain, namespaces) == x + "."
  {
    if !LooksExpanded(Split(x), trustDomain) {
      NamespaceSearchUndoneExactly(x, from, trustDomain);
      RewriteOutside(x + "." + from + ".svc." + trustDomain + ".", x, from, trustDomain, namespaces);
    }
    if k <= |Split(trustDomain)| && "svc" !in Split(trustDomain) {
      NormalisationUndoesExpansion(x, trustDomain, k, from);
      RewriteOutside(Expanded(x, trustDomain, k, from), x, from, trustDomain, namespaces);
    }
  }
}
