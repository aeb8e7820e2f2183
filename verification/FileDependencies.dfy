/** The file-level projection of the symbol graph, in both directions. */
module FileDependencies {
  import opened Wrappers
  import opened CodeGraph

  /** Some symbol of `a` has an edge other than `contains` into some symbol of
      the different file `b`. */
  ghost predicate DependsOn(g: Graph, a: Path, b: Path) {
    a != b && exists e :: CrossFile(g, e, a, b)
  }

  predicate CrossFile(g: Graph, e: Edge, a: Path, b: Path) {
    && e in g.edges && e.kind != Contains && e.source in g.nodes && e.target in g.nodes
    && g.nodes[e.source].filePath == a && g.nodes[e.target].filePath == b
  }

  /** `getDependencyFilePaths`. */
  method GetDependencyFilePaths(g: Graph, file: Path) returns (fs: seq<Path>)
    ensures Distinct(fs)
    ensures forall f :: f in fs <==> DependsOn(g, file, f)
  {
    var es := SelectEdges(g, (e: Edge) =>
      e.kind != Contains && e.source in g.nodes && e.target in g.nodes
      && g.nodes[e.source].filePath == file && g.nodes[e.target].filePath != file);
    assert forall e :: e in es ==> e.target in g.nodes && CrossFile(g, e, file, g.nodes[e.target].filePath);
    fs := [];
    for i := 0 to |es|
      invariant Distinct(fs)
      invariant forall f :: f in fs ==> DependsOn(g, file, f)
      invariant forall j :: 0 <= j < i ==> es[j].target in g.nodes && g.nodes[es[j].target].filePath in fs
    {
      assert es[i] in es;
      var f := g.nodes[es[i].target].filePath;
      assert CrossFile(g, es[i], file, f);
      if f !in fs {
        fs := fs + [f];
      }
    }
    forall f | DependsOn(g, file, f) ensures f in fs {
      var e :| CrossFile(g, e, file, f);
      assert e in es;
    }
  }

  /** `getDependentFilePaths`, the inverse. */
  method GetDependentFilePaths(g: Graph, file: Path) returns (fs: seq<Path>)
    ensures Distinct(fs)
    ensures forall f :: f in fs <==> DependsOn(g, f, file)
  {
    var es := SelectEdges(g, (e: Edge) =>
      e.kind != Contains && e.source in g.nodes && e.target in g.nodes
      && g.nodes[e.target].filePath == file && g.nodes[e.source].filePath != file);
    assert forall e :: e in es ==> e.source in g.nodes && CrossFile(g, e, g.nodes[e.source].filePath, file);
    fs := [];
    for i := 0 to |es|
      invariant Distinct(fs)
      invariant forall f :: f in fs ==> DependsOn(g, f, file)
      invariant forall j :: 0 <= j < i ==> es[j].source in g.nodes && g.nodes[es[j].source].filePath in fs
    {
      assert es[i] in es;
      var f := g.nodes[es[i].source].filePath;
      assert CrossFile(g, es[i], f, file);
      if f !in fs {
        fs := fs + [f];
      }
    }
    forall f | DependsOn(g, f, file) ensures f in fs {
      var e :| CrossFile(g, e, f, file);
      assert e in es;
    }
  }
}
