/** The chapter-2 page's result list: each single-method component upserts its
    record by method name, the side-by-side run replaces the whole list, and
    the report opens only over a non-empty list. */
module Capitulo2Page {
  import opened Results

  /** `prev.filter((r) => r.method !== name)`. */
  function WithoutMethod(prev: seq<MethodRun>, name: string): (kept: seq<MethodRun>)
    ensures |kept| <= |prev|
    decreases |prev|
  {
    if |prev| == 0 then []
    else
      var rest := WithoutMethod(prev[..|prev| - 1], name);
      var last := prev[|prev| - 1];
      if last.name != name then rest + [last] else rest
  }

  /** The kept records are exactly the records of other methods. */
  lemma {:induction false} WithoutMethodMembers(prev: seq<MethodRun>, name: string)
    ensures forall r :: r in WithoutMethod(prev, name) <==> r in prev && r.name != name
    decreases |prev|
  {
    if |prev| > 0 {
      WithoutMethodMembers(prev[..|prev| - 1], name);
      assert prev == prev[..|prev| - 1] + [prev[|prev| - 1]];
    }
  }

  /** handleMethodResult: drop every record of that method, then append the new one. */
  function Upsert(prev: seq<MethodRun>, name: string, run: MethodRun): seq<MethodRun> {
    WithoutMethod(prev, name) + [run]
  }

  /** How many records carry the given method name. */
  function CountNamed(s: seq<MethodRun>, name: string): nat
    decreases |s|
  {
    if |s| == 0 then 0
    else CountNamed(s[..|s| - 1], name) + (if s[|s| - 1].name == name then 1 else 0)
  }

  /** Filtering distributes over concatenation: the kept records of a + b are
      the kept records of a followed by those of b, so records of other methods
      keep their relative order. */
  lemma {:induction false} WithoutMethodDistributes(a: seq<MethodRun>, b: seq<MethodRun>, name: string)
    ensures WithoutMethod(a + b, name) == WithoutMethod(a, name) + WithoutMethod(b, name)
    decreases |b|
  {
    if |b| == 0 {
      assert a + b == a;
    } else {
      var bs := b[..|b| - 1];
      WithoutMethodDistributes(a, bs, name);
      assert (a + b)[..|a + b| - 1] == a + bs;
      assert (a + b)[|a + b| - 1] == b[|b| - 1];
    }
  }

  /** A list with no record of that method is left as it is. */
  lemma {:induction false} WithoutMethodOfOthers(s: seq<MethodRun>, name: string)
    requires forall r :: r in s ==> r.name != name
    ensures WithoutMethod(s, name) == s
    decreases |s|
  {
    if |s| > 0 {
      WithoutMethodOfOthers(s[..|s| - 1], name);
      assert s[..|s| - 1] + [s[|s| - 1]] == s;
    }
  }

  /** Filtering removes exactly the records of that method. */
  lemma {:induction false} WithoutMethodLength(s: seq<MethodRun>, name: string)
    ensures |WithoutMethod(s, name)| == |s| - CountNamed(s, name)
    decreases |s|
  {
    if |s| > 0 {
      WithoutMethodLength(s[..|s| - 1], name);
    }
  }

  /** After an upsert the new record is last, no earlier record has that method
      name, the earlier records are exactly the old records of other methods,
      and the length is the old length minus that method's records plus one. */
  lemma UpsertShape(prev: seq<MethodRun>, name: string, run: MethodRun)
    ensures var next := Upsert(prev, name, run);
      && |next| == |prev| - CountNamed(prev, name) + 1
      && next[|next| - 1] == run
      && (forall i :: 0 <= i < |next| - 1 ==> next[i].name != name)
      && (forall r :: r in next[..|next| - 1] <==> r in prev && r.name != name)
  {
    var next := Upsert(prev, name, run);
    WithoutMethodLength(prev, name);
    WithoutMethodMembers(prev, name);
    assert next[..|next| - 1] == WithoutMethod(prev, name);
    forall i | 0 <= i < |next| - 1
      ensures next[i].name != name
    {
      assert next[i] in WithoutMethod(prev, name);
    }
  }

  /** No two records share a method name. */
  predicate UniqueNames(s: seq<MethodRun>) {
    forall i, j :: 0 <= i < j < |s| ==> s[i].name != s[j].name
  }

  lemma {:induction false} WithoutMethodKeepsUnique(s: seq<MethodRun>, name: string)
    requires UniqueNames(s)
    ensures UniqueNames(WithoutMethod(s, name))
    decreases |s|
  {
    if |s| > 0 {
      var prefix := s[..|s| - 1];
      var last := s[|s| - 1];
      assert UniqueNames(prefix);
      WithoutMethodKeepsUnique(prefix, name);
      var kept := WithoutMethod(prefix, name);
      WithoutMethodMembers(prefix, name);
      forall r | r in kept
        ensures r.name != last.name
      {
        assert r in prefix;
        var i :| 0 <= i < |prefix| && prefix[i] == r;
        assert s[i] == r;
      }
    }
  }

  /** Upserting the record of the method it is filed under keeps the names
      unique: at most one record per method. */
  lemma UpsertKeepsNamesUnique(prev: seq<MethodRun>, name: string, run: MethodRun)
    requires UniqueNames(prev) && run.name == name
    ensures UniqueNames(Upsert(prev, name, run))
  {
    var kept := WithoutMethod(prev, name);
    WithoutMethodKeepsUnique(prev, name);
    WithoutMethodMembers(prev, name);
    forall i | 0 <= i < |kept|
      ensures kept[i].name != run.name
    {
      assert kept[i] in kept;
    }
  }

  /** Submitting the same record twice leaves the list as after the first time. */
  lemma UpsertIdempotent(prev: seq<MethodRun>, name: string, run: MethodRun)
    requires run.name == name
    ensures Upsert(Upsert(prev, name, run), name, run) == Upsert(prev, name, run)
  {
    var kept := WithoutMethod(prev, name);
    WithoutMethodDistributes(kept, [run], name);
    WithoutMethodMembers(prev, name);
    WithoutMethodOfOthers(kept, name);
    assert WithoutMethod([run], name) == [];
  }

  /** The page's state: the list of results and whether the report is open. */
  datatype PageState = PageState(results: seq<MethodRun>, showReport: bool)

  /** The report is open only over a non-empty list. */
  predicate ReportGuarded(st: PageState) {
    st.showReport ==> |st.results| > 0
  }

  /** A single-method component delivered its record. */
  function HandleMethodResult(st: PageState, name: string, run: MethodRun): PageState {
    st.(results := Upsert(st.results, name, run))
  }

  /** The side-by-side run replaced the list with its records. */
  function HandleSimultaneousResults(st: PageState, runs: seq<MethodRun>): PageState {
    st.(results := runs)
  }

  /** handleGenerateReport: open the report only when there are results. */
  function HandleGenerateReport(st: PageState): (next: PageState)
    ensures next.results == st.results
    ensures next.showReport <==> st.showReport || |st.results| > 0
  {
    if |st.results| > 0 then st.(showReport := true) else st
  }

  /** The report's close button. */
  function CloseReport(st: PageState): PageState {
    st.(showReport := false)
  }

  /** Every transition keeps the report guarded: a generate request over an
      empty list opens nothing, an upsert never empties the list, and the
      side-by-side run delivers its three records. */
  lemma TransitionsKeepReportGuarded(st: PageState, name: string, run: MethodRun, runs: seq<MethodRun>)
    requires ReportGuarded(st)
    requires |runs| == 3
    ensures ReportGuarded(HandleGenerateReport(st))
    ensures ReportGuarded(HandleMethodResult(st, name, run))
    ensures ReportGuarded(HandleSimultaneousResults(st, runs))
    ensures ReportGuarded(CloseReport(st))
    ensures HandleGenerateReport(PageState([], false)).showReport == false
  {
  }
}
