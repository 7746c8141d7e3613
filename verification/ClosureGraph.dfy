/** The import closure of the deployed functions: a pass that scans it, and the files one entrypoint reaches. */
module ClosureGraph {
  // What scanning a file finds is a function passed in; the files there are form a finite set.

  datatype Graph = Graph(entrypoints: seq<string>, scans: map<string, seq<string>>)

  /** The repository as far as scanning sees it: which files there are, which can be scanned, and what they import. */
  datatype Sources = Sources(files: set<string>, scannable: string -> bool, edgesOf: string -> seq<string>)

  ghost predicate Closed(sources: Sources, entrypoints: seq<string>) {
    && (forall f :: f in entrypoints ==> f in sources.files)
    && (forall f, e :: f in sources.files && e in sources.edgesOf(f) ==> e in sources.files)
  }

  /** A chain of imports from an entrypoint through scannable files only. */
  ghost predicate Chain(sources: Sources, entrypoints: seq<string>, chain: seq<string>) {
    && chain != [] && chain[0] in entrypoints
    && (forall i :: 0 <= i < |chain| ==> sources.scannable(chain[i]))
    && (forall i :: 0 < i < |chain| ==> chain[i] in sources.edgesOf(chain[i - 1]))
  }

  ghost predicate Reached(sources: Sources, entrypoints: seq<string>, file: string) {
    exists chain :: Chain(sources, entrypoints, chain) && chain[|chain| - 1] == file
  }

  /** Each queued file is an entrypoint or imported by a reached file. */
  ghost predicate Pending(sources: Sources, entrypoints: seq<string>, file: string) {
    file in entrypoints || exists f :: Reached(sources, entrypoints, f) && file in sources.edgesOf(f)
  }

  lemma PendingReached(sources: Sources, entrypoints: seq<string>, file: string)
    requires Pending(sources, entrypoints, file) && sources.scannable(file)
    ensures Reached(sources, entrypoints, file)
  {
    if file in entrypoints {
      assert Chain(sources, entrypoints, [file]) && [file][0] == file;
    } else {
      var f :| Reached(sources, entrypoints, f) && file in sources.edgesOf(f);
      var chain :| Chain(sources, entrypoints, chain) && chain[|chain| - 1] == f;
      assert Chain(sources, entrypoints, chain + [file]) && (chain + [file])[|chain|] == file;
    }
  }

  /** What was scanned covers a set if every scannable member and import is scanned or queued. */
  ghost predicate Covered(sources: Sources, scans: map<string, seq<string>>, queue: seq<string>, wanted: string) {
    sources.scannable(wanted) ==> wanted in scans || wanted in queue
  }

  lemma {:induction false} ChainScanned(sources: Sources, entrypoints: seq<string>, scans: map<string, seq<string>>, chain: seq<string>)
    requires Chain(sources, entrypoints, chain)
    requires forall f :: f in entrypoints ==> Covered(sources, scans, [], f)
    requires forall f, e :: f in scans && e in sources.edgesOf(f) ==> Covered(sources, scans, [], e)
    ensures chain[|chain| - 1] in scans
    decreases |chain|
  {
    if |chain| > 1 {
      var front := chain[..|chain| - 1];
      assert Chain(sources, entrypoints, front);
      ChainScanned(sources, entrypoints, scans, front);
      var last, next := front[|front| - 1], chain[|chain| - 1];
      assert last == chain[|chain| - 2] && next in sources.edgesOf(last);
      assert Covered(sources, scans, [], next);
    }
  }

  /** Pushes the edges that are not done yet. */
  method PushNew(queue: seq<string>, edges: seq<string>, done: set<string>) returns (pushed: seq<string>)
    ensures forall f :: f in pushed <==> f in queue || (f in edges && f !in done)
  {
    pushed := queue;
    for i := 0 to |edges|
      invariant forall f :: f in pushed <==> f in queue || (f in edges[..i] && f !in done)
    {
      assert edges[..i + 1] == edges[..i] + [edges[i]];
      if edges[i] !in done { pushed := pushed + [edges[i]]; }
    }
    assert edges[..|edges|] == edges;
  }

  method Pop(queue: seq<string>) returns (file: string, rest: seq<string>)
    requires queue != []
    ensures queue == rest + [file]
    ensures forall f :: f in queue <==> f in rest || f == file
  {
    file, rest := queue[|queue| - 1], queue[..|queue| - 1];
  }

  /** Scanned files are reached, queued files are pending, and nothing found is forgotten. */
  ghost predicate Scanning(sources: Sources, entrypoints: seq<string>, scans: map<string, seq<string>>, queue: seq<string>) {
    && scans.Keys <= sources.files
    && (forall f :: f in queue ==> f in sources.files && Pending(sources, entrypoints, f))
    && (forall f :: f in scans ==> scans[f] == sources.edgesOf(f) && Reached(sources, entrypoints, f))
    && (forall f :: f in entrypoints ==> Covered(sources, scans, queue, f))
    && (forall f, e :: f in scans && e in sources.edgesOf(f) ==> Covered(sources, scans, queue, e))
  }

  lemma ScanSkips(sources: Sources, entrypoints: seq<string>, scans: map<string, seq<string>>, queue: seq<string>, file: string,
                  rest: seq<string>)
    requires Scanning(sources, entrypoints, scans, queue) && forall f :: f in queue <==> f in rest || f == file
    requires file in scans || !sources.scannable(file)
    ensures Scanning(sources, entrypoints, scans, rest)
  {
    hide Reached, Pending;
    forall f | Covered(sources, scans, queue, f)
      ensures Covered(sources, scans, rest, f)
    {
    }
    hide Covered;
  }

  lemma ScanSteps(sources: Sources, entrypoints: seq<string>, scans: map<string, seq<string>>, queue: seq<string>, file: string,
                  rest: seq<string>, scans': map<string, seq<string>>, pushed: seq<string>)
    requires Closed(sources, entrypoints) && Scanning(sources, entrypoints, scans, queue)
    requires forall f :: f in queue <==> f in rest || f == file
    requires file !in scans && sources.scannable(file) && scans' == scans[file := sources.edgesOf(file)]
    requires forall f :: f in pushed <==> f in rest || (f in sources.edgesOf(file) && f !in scans')
    ensures Scanning(sources, entrypoints, scans', pushed)
    ensures file in sources.files
  {
    assert file in queue;
    PendingReached(sources, entrypoints, file);
    hide Reached;
    forall f | f in pushed
      ensures f in sources.files && Pending(sources, entrypoints, f)
    {
      if f !in rest { assert f in sources.edgesOf(file); }
    }
    forall f | Covered(sources, scans, queue, f)
      ensures Covered(sources, scans', pushed, f)
    {
    }
    forall e | e in sources.edgesOf(file)
      ensures Covered(sources, scans', pushed, e)
    {
    }
    hide Covered, Pending;
  }

  /** Scans one file: its edges are noted and those not scanned yet are queued. */
  method ScanFile(sources: Sources, ghost entrypoints: seq<string>, scans: map<string, seq<string>>, ghost queue: seq<string>,
                  file: string, rest: seq<string>) returns (scans': map<string, seq<string>>, pushed: seq<string>)
    requires Closed(sources, entrypoints) && Scanning(sources, entrypoints, scans, queue)
    requires forall f :: f in queue <==> f in rest || f == file
    requires file !in scans && sources.scannable(file)
    ensures Scanning(sources, entrypoints, scans', pushed)
    ensures sources.files - scans'.Keys < sources.files - scans.Keys
  {
    hide *;
    var edges := sources.edgesOf(file);
    scans' := scans[file := edges];
    pushed := PushNew(rest, edges, scans'.Keys);
    ScanSteps(sources, entrypoints, scans, queue, file, rest, scans', pushed);
    assert sources.files - scans'.Keys == (sources.files - scans.Keys) - {file};
    assert file in sources.files - scans.Keys;
  }

  /** Scans exactly the scannable files that the entrypoints reach, each once. */
  method BuildClosureGraph(sources: Sources, entrypoints: seq<string>) returns (graph: Graph)
    requires Closed(sources, entrypoints)
    ensures graph.entrypoints == entrypoints
    ensures forall f :: f in graph.scans <==> Reached(sources, entrypoints, f)
    ensures forall f :: f in graph.scans ==> graph.scans[f] == sources.edgesOf(f)
  {
    hide *;
    var scans: map<string, seq<string>> := map[];
    var queue := entrypoints;
    ScanStarts(sources, entrypoints);
    while queue != []
      invariant Scanning(sources, entrypoints, scans, queue)
      decreases sources.files - scans.Keys, |queue|
    {
      var file, rest := Pop(queue);
      if file in scans || !sources.scannable(file) {
        ScanSkips(sources, entrypoints, scans, queue, file, rest);
        queue := rest;
      } else {
        scans, queue := ScanFile(sources, entrypoints, scans, queue, file, rest);
      }
    }
    ScanDone(sources, entrypoints, scans);
    graph := Graph(entrypoints, scans);
  }

  lemma ScanStarts(sources: Sources, entrypoints: seq<string>)
    requires Closed(sources, entrypoints)
    ensures Scanning(sources, entrypoints, map[], entrypoints)
  {
  }

  lemma ScanDone(sources: Sources, entrypoints: seq<string>, scans: map<string, seq<string>>)
    requires Scanning(sources, entrypoints, scans, [])
    ensures forall f :: f in scans <==> Reached(sources, entrypoints, f)
    ensures forall f :: f in scans ==> scans[f] == sources.edgesOf(f)
  {
    hide Reached, Covered;
    forall f | Reached(sources, entrypoints, f)
      ensures f in scans
    {
      ReachedScanned(sources, entrypoints, scans, f);
    }
  }

  lemma ReachedScanned(sources: Sources, entrypoints: seq<string>, scans: map<string, seq<string>>, f: string)
    requires Reached(sources, entrypoints, f)
    requires forall f :: f in entrypoints ==> Covered(sources, scans, [], f)
    requires forall f, e :: f in scans && e in sources.edgesOf(f) ==> Covered(sources, scans, [], e)
    ensures f in scans
  {
    var chain :| Chain(sources, entrypoints, chain) && chain[|chain| - 1] == f;
    ChainScanned(sources, entrypoints, scans, chain);
  }

  // ---- What one entrypoint reaches ----

  function EdgesIn(graph: Graph, file: string): seq<string> { if file in graph.scans then graph.scans[file] else [] }

  ghost predicate EdgeClosed(graph: Graph, files: set<string>) {
    forall f, e :: f in files && e in EdgesIn(graph, f) ==> e in files
  }

  /** Every file the graph mentions. */
  ghost function Mentioned(graph: Graph, entrypoint: string): set<string> {
    {entrypoint} + set f, e | f in graph.scans && e in graph.scans[f] :: e
  }

  /** The least closed set with the entrypoint. */
  ghost predicate Least(graph: Graph, entrypoint: string, seen: set<string>) {
    && entrypoint in seen && EdgeClosed(graph, seen)
    && forall files :: entrypoint in files && EdgeClosed(graph, files) ==> seen <= files
  }

  /** Nothing found is forgotten, and nothing outside any closed set is found. */
  ghost predicate Searching(graph: Graph, entrypoint: string, seen: set<string>, queue: seq<string>) {
    && seen <= Mentioned(graph, entrypoint) && (forall f :: f in queue ==> f in Mentioned(graph, entrypoint))
    && (entrypoint in seen || entrypoint in queue)
    && (forall f, e :: f in seen && e in EdgesIn(graph, f) ==> e in seen || e in queue)
    && (forall files, f :: entrypoint in files && EdgeClosed(graph, files) && (f in seen || f in queue) ==> f in files)
  }

  lemma SearchSteps(graph: Graph, entrypoint: string, seen: set<string>, queue: seq<string>, file: string, rest: seq<string>,
                    pushed: seq<string>)
    requires Searching(graph, entrypoint, seen, queue) && forall f :: f in queue <==> f in rest || f == file
    requires forall f :: f in pushed <==> f in rest || (f in EdgesIn(graph, file) && f !in seen + {file})
    ensures Searching(graph, entrypoint, seen + {file}, pushed)
  {
    assert file in queue;
    forall files, f | entrypoint in files && EdgeClosed(graph, files) && f in EdgesIn(graph, file)
      ensures f in files
    {
      assert file in files;
    }
    forall f | f in EdgesIn(graph, file)
      ensures f in Mentioned(graph, entrypoint)
    {
    }
    hide EdgeClosed, Mentioned, EdgesIn;
  }

  lemma SearchShrinks(graph: Graph, entrypoint: string, seen: set<string>, queue: seq<string>, file: string)
    requires Searching(graph, entrypoint, seen, queue) && file in queue && file !in seen
    ensures |Mentioned(graph, entrypoint) - (seen + {file})| < |Mentioned(graph, entrypoint) - seen|
  {
    hide EdgeClosed, Mentioned, EdgesIn;
    var left := Mentioned(graph, entrypoint) - seen;
    assert file in left && Mentioned(graph, entrypoint) - (seen + {file}) == left - {file};
  }

  lemma SearchSkips(graph: Graph, entrypoint: string, seen: set<string>, queue: seq<string>, file: string, rest: seq<string>)
    requires Searching(graph, entrypoint, seen, queue) && file in seen && forall f :: f in queue <==> f in rest || f == file
    ensures Searching(graph, entrypoint, seen, rest)
  {
    hide EdgeClosed, Mentioned, EdgesIn;
  }

  /** The least set that contains the entrypoint and whatever its members import. */
  method ReachableFrom(graph: Graph, entrypoint: string) returns (seen: set<string>)
    ensures Least(graph, entrypoint, seen)
  {
    seen := {};
    var queue := [entrypoint];
    assert Searching(graph, entrypoint, seen, queue);
    hide *;
    while queue != []
      invariant Searching(graph, entrypoint, seen, queue)
      decreases |Mentioned(graph, entrypoint) - seen|, |queue|
    {
      var file, rest := Pop(queue);
      if file in seen {
        SearchSkips(graph, entrypoint, seen, queue, file, rest);
        queue := rest;
        continue;
      }
      var pushed := PushNew(rest, EdgesIn(graph, file), seen + {file});
      SearchSteps(graph, entrypoint, seen, queue, file, rest, pushed);
      SearchShrinks(graph, entrypoint, seen, queue, file);
      seen, queue := seen + {file}, pushed;
    }
    SearchDone(graph, entrypoint, seen);
  }

  lemma SearchDone(graph: Graph, entrypoint: string, seen: set<string>)
    requires Searching(graph, entrypoint, seen, [])
    ensures Least(graph, entrypoint, seen)
  {
    hide Mentioned, EdgesIn;
    assert forall files :: entrypoint in files && EdgeClosed(graph, files) ==> forall f :: f in seen ==> f in files;
  }

  lemma ReachedStep(sources: Sources, entrypoints: seq<string>, f: string, e: string)
    requires Reached(sources, entrypoints, f) && e in sources.edgesOf(f) && sources.scannable(e)
    ensures Reached(sources, entrypoints, e)
  {
    PendingReached(sources, entrypoints, e);
  }

  /** No scannable file an entrypoint reaches is left unscanned: the reached set of an entrypoint, apart from files that
  cannot be scanned, lies within the graph. */
  lemma NothingUnscanned(sources: Sources, graph: Graph, entrypoint: string, seen: set<string>)
    requires forall f :: f in graph.scans <==> Reached(sources, graph.entrypoints, f)
    requires forall f :: f in graph.scans ==> graph.scans[f] == sources.edgesOf(f)
    requires entrypoint in graph.entrypoints
    requires Least(graph, entrypoint, seen)
    ensures forall f :: f in seen && sources.scannable(f) ==> f in graph.scans
  {
    hide Reached;
    var all := Mentioned(graph, entrypoint);
    var kept := set f | f in all && (sources.scannable(f) ==> f in graph.scans);
    if sources.scannable(entrypoint) {
      PendingReached(sources, graph.entrypoints, entrypoint);
    }
    forall f, e | f in kept && e in EdgesIn(graph, f)
      ensures e in kept
    {
      if sources.scannable(e) { ReachedStep(sources, graph.entrypoints, f, e); }
    }
    assert EdgeClosed(graph, kept);
  }
}
