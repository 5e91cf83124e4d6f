/** The tool vocabulary, the reviewed profiles and all-or-nothing gap validation. */
module Vocabulary {
  import opened Common

  /** A JSON value as it arrives in a heartbeat body; objects carry nothing the hub reads. */
  datatype Json = JNull | JBool(flag: bool) | JNumber(number: int) | JString(text: string) | JList(items: seq<Json>) | JObject

  datatype Rejection = NotAList | TooMany | NotAString | OutsideVocabulary | UnknownProfile

  datatype Validation = Accepted(tools: seq<string>) | Refused(code: Rejection)

  const VOCABULARY: seq<string> := [
    "cargo", "cmake", "dotnet", "gcc", "g++", "gitleaks", "go", "gradle", "java",
    "make", "maven", "node", "npm", "pnpm", "pip", "python", "shellcheck"]

  const PROFILES: seq<string> := ["none", "base", "rust", "node", "go", "jvm", "dotnet", "web-js", "ci-hygiene"]

  const MISSING_TOOLS_MAX_ENTRIES := 32
  const DECISION_NOTE_MAX_CHARS := 512
  const TOOL_REQUEST_SUPPRESSION_DAYS := 14

  predicate KnownProfile(profile: Option<string>) {
    profile.None? || profile.value in PROFILES
  }

  /** Every entry is a vocabulary word. */
  predicate WellNamed(items: seq<Json>) {
    forall i :: 0 <= i < |items| ==> items[i].JString? && items[i].text in VOCABULARY
  }

  function Names(items: seq<Json>): (r: seq<string>)
    requires WellNamed(items)
    ensures |r| == |items| && forall i :: 0 <= i < |r| ==> r[i] == items[i].text
  {
    seq(|items|, i requires 0 <= i < |items| => items[i].text)
  }

  function EntryFault(entry: Json): (r: Option<Rejection>) {
    if !entry.JString? then Some(NotAString)
    else if entry.text !in VOCABULARY then Some(OutsideVocabulary)
    else None
  }

  /** The fault of the first faulty entry. */
  function FirstFault(items: seq<Json>): (r: Option<Rejection>)
    ensures r.None? <==> WellNamed(items)
  {
    if items == [] then None
    else if EntryFault(items[0]).Some? then EntryFault(items[0])
    else
      assert items == [items[0]] + items[1..];
      FirstFault(items[1..])
  }

  function Validate(submitted: Json): (r: Validation)
    ensures r.Accepted? <==>
              submitted.JList? && |submitted.items| <= MISSING_TOOLS_MAX_ENTRIES && WellNamed(submitted.items)
    ensures r.Accepted? ==> r.tools == Names(submitted.items)
  {
    if !submitted.JList? then Refused(NotAList)
    else if |submitted.items| > MISSING_TOOLS_MAX_ENTRIES then Refused(TooMany)
    else match FirstFault(submitted.items)
      case Some(code) => Refused(code)
      case None => Accepted(Names(submitted.items))
  }

  lemma {:induction false} FirstFaultAt(items: seq<Json>, k: nat)
    requires k < |items|
    requires forall i :: 0 <= i < k ==> EntryFault(items[i]).None?
    requires EntryFault(items[k]).Some?
    ensures FirstFault(items) == EntryFault(items[k])
  {
    if k > 0 {
      FirstFaultAt(items[1..], k - 1);
    }
  }

  /** A list of at most 32 entries whose first fault is at `k`. */
  ghost predicate FaultyAt(submitted: Json, k: nat) {
    && submitted.JList? && k < |submitted.items| <= 32
    && !(submitted.items[k].JString? && submitted.items[k].text in VOCABULARY)
    && forall i :: 0 <= i < k ==> submitted.items[i].JString? && submitted.items[i].text in VOCABULARY
  }

  /** Which code a refused list gets: not being a list first, its length next, and then its first fault. */
  lemma {:induction false} RefusalCodes(submitted: Json, k: nat)
    ensures Validate(submitted) == Refused(NotAList) <==> !submitted.JList?
    ensures Validate(submitted) == Refused(TooMany) <==> submitted.JList? && |submitted.items| > 32
    ensures FaultyAt(submitted, k) ==>
              Validate(submitted) == Refused(if submitted.items[k].JString? then OutsideVocabulary else NotAString)
  {
    if submitted.JList? {
      FaultIsAFault(submitted.items);
      if FaultyAt(submitted, k) {
        FirstFaultAt(submitted.items, k);
      }
    }
  }

  lemma {:induction false} FaultIsAFault(items: seq<Json>)
    ensures FirstFault(items) in {None, Some(NotAString), Some(OutsideVocabulary)}
  {
    if items != [] {
      FaultIsAFault(items[1..]);
    }
  }

  /** The validator as the hub runs it: the length first, then entry by entry, giving up at the first fault. */
  method ValidateMissingTools(submitted: Json) returns (r: Validation)
    ensures r == Validate(submitted)
  {
    if !submitted.JList? {
      return Refused(NotAList);
    }
    if |submitted.items| > MISSING_TOOLS_MAX_ENTRIES {
      return Refused(TooMany);
    }
    var tools := [];
    for i := 0 to |submitted.items|
      invariant forall j :: 0 <= j < i ==> EntryFault(submitted.items[j]).None?
      invariant |tools| == i && forall j :: 0 <= j < i ==> tools[j] == submitted.items[j].text
    {
      var entry := submitted.items[i];
      if !entry.JString? {
        FirstFaultAt(submitted.items, i);
        return Refused(NotAString);
      }
      if entry.text !in VOCABULARY {
        FirstFaultAt(submitted.items, i);
        return Refused(OutsideVocabulary);
      }
      tools := tools + [entry.text];
    }
    assert WellNamed(submitted.items);
    return Accepted(tools);
  }

  /** The first occurrences, in order. */
  function FirstOccurrences(tools: seq<string>): (r: seq<string>) {
    if tools == [] then []
    else
      var n := |tools| - 1;
      var front := FirstOccurrences(tools[..n]);
      if tools[n] in tools[..n] then front else front + [tools[n]]
  }

  /** De-duplication keeps every tool exactly once. */
  lemma {:induction false} FirstOccurrencesDistinct(tools: seq<string>)
    ensures NoDuplicates(FirstOccurrences(tools))
    ensures Elements(FirstOccurrences(tools)) == Elements(tools)
    ensures |FirstOccurrences(tools)| == |Elements(tools)|
  {
    if tools != [] {
      var n := |tools| - 1;
      FirstOccurrencesDistinct(tools[..n]);
      assert tools == tools[..n] + [tools[n]];
      var front := FirstOccurrences(tools[..n]);
      assert tools[n] in tools[..n] || tools[n] !in front by {
        if tools[n] in front {
          assert tools[n] in Elements(front);
        }
      }
      assert Elements(tools) == Elements(tools[..n]) + {tools[n]};
      assert Elements(FirstOccurrences(tools)) == Elements(tools) by {
        assert forall t :: t in front <==> t in Elements(front);
      }
    }
    DistinctCount(FirstOccurrences(tools));
  }

  /** ... and in the order of their first occurrence. */
  lemma {:induction false} FirstOccurrencesOrdered(tools: seq<string>, i: nat, j: nat)
    requires i < j < |FirstOccurrences(tools)|
    ensures var r := FirstOccurrences(tools); exists a, b :: 0 <= a < b < |tools| && tools[a] == r[i] && tools[b] == r[j] && r[j] !in tools[..b]
  {
    var n := |tools| - 1;
    var front := FirstOccurrences(tools[..n]);
    if j < |front| {
      FirstOccurrencesOrdered(tools[..n], i, j);
      var a, b :| 0 <= a < b < n && tools[..n][a] == front[i] && tools[..n][b] == front[j] && front[j] !in tools[..n][..b];
      assert tools[..n][..b] == tools[..b];
      assert tools[a] == front[i] && tools[b] == front[j];
    } else {
      FirstOccurrencesDistinct(tools[..n]);
      assert front[i] in Elements(front);
      var a :| 0 <= a < n && tools[..n][a] == front[i];
      assert tools[a] == front[i] && tools[n] !in tools[..n];
    }
  }

  method Dedupe(tools: seq<string>) returns (out: seq<string>)
    ensures out == FirstOccurrences(tools)
  {
    var seen: set<string> := {};
    out := [];
    for i := 0 to |tools|
      invariant out == FirstOccurrences(tools[..i])
      invariant seen == Elements(tools[..i])
    {
      assert tools[..i + 1][..i] == tools[..i];
      if tools[i] !in seen {
        seen := seen + {tools[i]};
        out := out + [tools[i]];
      }
    }
    assert tools[..|tools|] == tools;
  }
}
