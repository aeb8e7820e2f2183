/** The symbols that indexing files one after the other leaves: each file in
    turn lays its rows over those of the files before it. */
module Layers {
  import opened Wrappers
  import opened CodeGraph
  import opened Sync

  type Table = map<Id, Node>

  /** The rows that belong to none of the files. */
  function Kept(nodes: Table, files: set<Path>): Table {
    map id | id in nodes && nodes[id].filePath !in files :: nodes[id]
  }

  /** The rows of the files, indexed in this order; a file listed again was
      indexed the first time. */
  function Layered(en: Engine, texts: map<Path, string>, fs: seq<Path>): Table
    requires forall f :: f in fs ==> f in texts
  {
    if fs == [] then map[]
    else
      var init, last := fs[..|fs| - 1], fs[|fs| - 1];
      if last in init then Layered(en, texts, init) else Layered(en, texts, init) + Rows(en, last, texts[last])
  }

  /** The file whose row of the id is on top. */
  function Owner(en: Engine, texts: map<Path, string>, fs: seq<Path>, id: Id): (r: Option<Path>)
    requires forall f :: f in fs ==> f in texts
    ensures r.Some? <==> exists f :: f in fs && id in Rows(en, f, texts[f])
    ensures r.Some? ==> r.value in fs && id in Rows(en, r.value, texts[r.value])
  {
    if fs == [] then None
    else
      var init, last := fs[..|fs| - 1], fs[|fs| - 1];
      assert fs == init + [last];
      if last !in init && id in Rows(en, last, texts[last]) then Some(last) else Owner(en, texts, init, id)
  }

  lemma {:induction false} LayeredByOwner(en: Engine, texts: map<Path, string>, fs: seq<Path>, id: Id)
    requires forall f :: f in fs ==> f in texts
    ensures id in Layered(en, texts, fs) <==> Owner(en, texts, fs, id).Some?
    ensures var o := Owner(en, texts, fs, id);
      o.Some? ==> Layered(en, texts, fs)[id] == Rows(en, o.value, texts[o.value])[id]
  {
    hide Rows;
    if fs != [] {
      LayeredByOwner(en, texts, fs[..|fs| - 1], id);
    }
  }

  function SetOfFiles(fs: seq<Path>): set<Path> {
    set f | f in fs
  }

  /** One more file indexed. */
  lemma LayeredNext(en: Engine, texts: map<Path, string>, fs: seq<Path>, i: nat)
    requires i < |fs| && forall f :: f in fs ==> f in texts
    ensures Layered(en, texts, fs[..i + 1]) ==
      if fs[i] in fs[..i] then Layered(en, texts, fs[..i])
      else Layered(en, texts, fs[..i]) + Rows(en, fs[i], texts[fs[i]])
    ensures SetOfFiles(fs[..i + 1]) == SetOfFiles(fs[..i]) + {fs[i]}
  {
    assert fs[..i + 1][..i] == fs[..i];
  }

  /** The rows on top belong to the files that were indexed. */
  lemma LayeredPaths(en: Engine, texts: map<Path, string>, fs: seq<Path>)
    requires forall f :: f in fs ==> f in texts
    requires forall f, id :: f in fs && id in Rows(en, f, texts[f]) ==> Rows(en, f, texts[f])[id].filePath == f
    ensures forall id :: id in Layered(en, texts, fs) ==> Layered(en, texts, fs)[id].filePath in fs
  {
    hide Rows, Layered, Owner;
    forall id | id in Layered(en, texts, fs) ensures Layered(en, texts, fs)[id].filePath in fs {
      LayeredByOwner(en, texts, fs, id);
    }
  }

  lemma SameAt(a: Table, b: Table)
    requires forall id :: id in a <==> id in b
    requires forall id :: id in a ==> a[id] == b[id]
    ensures a == b
  {
  }

  /** Dropping what a file had and laying its new rows on top. */
  lemma LayOver(base: Table, done: set<Path>, layered: Table, file: Path, rows: Table, nodes: Table, was: set<Id>)
    requires nodes == Kept(base, done) + layered
    requires forall id :: id in was <==> id in nodes && nodes[id].filePath == file
    requires forall id :: id in layered ==> layered[id].filePath != file
    ensures (nodes - was) + rows == Kept(base, done + {file}) + (layered + rows)
  {
    var before, after := (nodes - was) + rows, Kept(base, done + {file}) + (layered + rows);
    forall id
      ensures id in before <==> id in after
      ensures id in before ==> before[id] == after[id]
    {
      LaidAt(base, done, layered, file, rows, nodes, was, id);
    }
    SameAt(before, after);
  }

  /** The same of one id. */
  lemma LaidAt(
    base: Table, done: set<Path>, layered: Table, file: Path, rows: Table, nodes: Table, was: set<Id>, id: Id)
    requires nodes == Kept(base, done) + layered
    requires id in was <==> id in nodes && nodes[id].filePath == file
    requires id in layered ==> layered[id].filePath != file
    ensures var before, after := (nodes - was) + rows, Kept(base, done + {file}) + (layered + rows);
      (id in before <==> id in after) && (id in before ==> before[id] == after[id])
  {
    if id !in rows && id in layered {
      assert nodes[id] == layered[id];
    }
  }

  /** The same when the file had nothing. */
  lemma LayOn(base: Table, done: set<Path>, layered: Table, file: Path, rows: Table, nodes: Table)
    requires nodes == Kept(base, done) + layered
    requires forall id :: id in base ==> base[id].filePath != file
    ensures nodes + rows == Kept(base, done + {file}) + (layered + rows)
  {
    assert Kept(base, done + {file}) == Kept(base, done);
  }
}
