/**
 Issue options of the certificate manager (pkg/certificate/options.go): common
 name formatting and the filter for subject alternative names (SANs).
 */
module CertOptions {
  import opened Prelude

  datatype IssueOption =
    | FullCNProvided
    | ValidityDurationProvided(duration: Option<int>)
    | SubjectAlternativeNames(saNames: seq<string>)

  datatype IssueOptions = IssueOptions(fullCN: bool, validity: Option<int>, saNames: seq<string>)

  const NO_OPTIONS := IssueOptions(false, None, [])

  function ApplyOption(o: IssueOptions, option: IssueOption): IssueOptions {
    match option
    case FullCNProvided => o.(fullCN := true)
    case ValidityDurationProvided(d) => o.(validity := d)
    case SubjectAlternativeNames(names) => o.(saNames := names)
  }

  /** The options after applying `options` in order. */
  function ApplyOptions(options: seq<IssueOption>): IssueOptions {
    if options == [] then NO_OPTIONS
    else ApplyOption(ApplyOptions(options[..|options| - 1]), options[|options| - 1])
  }

  lemma {:induction false} FullNameCounts(options: seq<IssueOption>)
    ensures ApplyOptions(options).fullCN <==> FullCNProvided in options
  {
    if options != [] {
      var n := |options| - 1;
      FullNameCounts(options[..n]);
      assert options == options[..n] + [options[n]];
    }
  }

  /** The last duration given counts, and the last list of names; without any there is none. */
  lemma {:induction false} LastOptionCounts(options: seq<IssueOption>, i: nat)
    requires i <= |options|
    ensures (forall j :: i <= j < |options| ==> !options[j].ValidityDurationProvided?) ==>
      ApplyOptions(options).validity ==
      if i > 0 && options[i - 1].ValidityDurationProvided? then options[i - 1].duration
      else ApplyOptions(options[..i]).validity
    ensures (forall j :: i <= j < |options| ==> !options[j].SubjectAlternativeNames?) ==>
      ApplyOptions(options).saNames ==
      if i > 0 && options[i - 1].SubjectAlternativeNames? then options[i - 1].saNames
      else ApplyOptions(options[..i]).saNames
    ensures ApplyOptions([]) == IssueOptions(false, None, [])
    decreases |options| - i
  {
    if i == |options| {
      assert options[..i] == options;
    } else {
      LastOptionCounts(options, i + 1);
      assert options[..i + 1][..i] == options[..i];
    }
  }

  /** `issueOptions.formatCN`. */
  function FormatCN(fullCN: bool, prefix: string, trustDomain: string): string {
    if fullCN then prefix else prefix + "." + trustDomain
  }

  /** A SAN survives the filter: no colon in it, and not excluded. */
  predicate Kept(san: string, exclude: seq<string>) {
    ':' !in san && san !in exclude
  }

  /** The kept names, each once, in order of first occurrence. */
  function Filtered(saNames: seq<string>, exclude: seq<string>): seq<string> {
    if saNames == [] then []
    else
      var front, san := Filtered(saNames[..|saNames| - 1], exclude), saNames[|saNames| - 1];
      if Kept(san, exclude) && san !in front then front + [san] else front
  }

  /** `uniqueSubjectAlternativeNames`: a list of one name is returned as it is, unfiltered. */
  function Unique(saNames: seq<string>, exclude: seq<string>): seq<string> {
    if |saNames| > 1 then Filtered(saNames, exclude) else saNames
  }

  method UniqueSubjectAlternativeNames(saNames: seq<string>, exclude: seq<string>) returns (r: seq<string>)
    ensures r == Unique(saNames, exclude)
  {
    if |saNames| > 1 {
      var seen: set<string> := {};
      var unique: seq<string> := [];
      for i := 0 to |saNames|
        invariant unique == Filtered(saNames[..i], exclude)
        invariant seen == set san | san in unique
      {
        assert saNames[..i + 1][..i] == saNames[..i];
        var san := saNames[i];
        if ':' in san { continue; }
        var excluded := IsExcluded(san, exclude);
        if excluded { continue; }
        if san !in seen {
          seen := seen + {san};
          unique := unique + [san];
        }
      }
      assert saNames[..|saNames|] == saNames;
      return unique;
    }
    return saNames;
  }

  method IsExcluded(san: string, exclude: seq<string>) returns (found: bool)
    ensures found <==> san in exclude
  {
    for i := 0 to |exclude|
      invariant san !in exclude[..i]
    {
      if san == exclude[i] { return true; }
    }
    return false;
  }

  /** What the filter promises: exactly the kept names, each once, in order of first occurrence. */
  lemma {:induction false} FilteredIsExact(saNames: seq<string>, exclude: seq<string>)
    ensures NoDuplicates(Filtered(saNames, exclude))
    ensures forall san :: san in Filtered(saNames, exclude) <==> san in saNames && Kept(san, exclude)
    ensures forall i, j :: 0 <= i < j < |Filtered(saNames, exclude)| ==>
      exists k :: 0 <= k < |saNames| && saNames[k] == Filtered(saNames, exclude)[i] &&
        Filtered(saNames, exclude)[j] !in saNames[..k]
  {
    if saNames != [] {
      var n := |saNames| - 1;
      var front, san := saNames[..n], saNames[n];
      FilteredIsExact(front, exclude);
      assert saNames == front + [san];
      var r, r' := Filtered(front, exclude), Filtered(saNames, exclude);
      forall i, j | 0 <= i < j < |r'|
        ensures exists k :: 0 <= k < |saNames| && saNames[k] == r'[i] && r'[j] !in saNames[..k]
      {
        var k: nat;
        if j < |r| {
          k :| k < n && front[k] == r[i] && r[j] !in front[..k];
        } else {
          assert r[i] in front;
          k :| k < n && front[k] == r[i];
        }
        assert saNames[..k] == front[..k];
      }
    }
  }

  /** A list that is already clean is left alone. */
  lemma {:induction false} FilteredOfClean(saNames: seq<string>)
    requires NoDuplicates(saNames) && forall san :: san in saNames ==> ':' !in san
    ensures Filtered(saNames, []) == saNames
  {
    if saNames != [] {
      var n := |saNames| - 1;
      CleanFront(saNames, n);
      FilteredOfClean(saNames[..n]);
      assert saNames == saNames[..n] + [saNames[n]];
    }
  }

  lemma CleanFront(saNames: seq<string>, n: nat)
    requires NoDuplicates(saNames) && n < |saNames| && forall san :: san in saNames ==> ':' !in san
    ensures NoDuplicates(saNames[..n]) && saNames[n] !in saNames[..n] && Kept(saNames[n], [])
    ensures forall san :: san in saNames[..n] ==> ':' !in san
  {
  }

  lemma UniqueIdempotent(saNames: seq<string>, exclude: seq<string>)
    ensures Unique(Unique(saNames, exclude), []) == Unique(saNames, exclude)
  {
    if |saNames| > 1 {
      FilteredIsExact(saNames, exclude);
      FilteredOfClean(Filtered(saNames, exclude));
    }
  }

  /** Appending a domain always changes the name, so a prefix never passes for a full common name. */
  lemma FormattedNameDiffersFromPrefix(prefix: string, trustDomain: string)
    ensures FormatCN(false, prefix, trustDomain) != prefix
  {
    assert |FormatCN(false, prefix, trustDomain)| > |prefix|;
  }
}
