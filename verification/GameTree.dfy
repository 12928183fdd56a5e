/** The directory tree the index is built from, and the recursive walk that builds it. */
module GameTree {
  import opened Options
  import opened Paths
  import opened CaseIndex

  /** What a listing says an entry is. DtUnknown is settled by a stat, which may fail. */
  datatype DType = DtDir | DtOther | DtUnknown(statOk: bool)

  /** Dir's `opens` says whether opendir on it succeeds. */
  datatype Tree = File | Dir(opens: bool, entries: seq<Entry>)

  datatype Entry = Entry(name: string, dtype: DType, tree: Tree)

  function Names(es: seq<Entry>): (ns: seq<string>)
    ensures |ns| == |es|
    ensures forall i :: 0 <= i < |es| ==> ns[i] == es[i].name
  {
    seq(|es|, i requires 0 <= i < |es| => es[i].name)
  }

  predicate TakenForDir(e: Entry) {
    e.dtype.DtDir? || (e.dtype.DtUnknown? && e.dtype.statOk && e.tree.Dir?)
  }

  // ---- What the walk puts, in order ----

  function Walk(path: string, t: Tree, extra: seq<string>): seq<Node>
    decreases t, if t.Dir? then |t.entries| + 2 else 0
  {
    if t.Dir? && t.opens
    then [DirNode(Fold(path), path, Names(t.entries))] + WalkUpTo(path, t, |t.entries|, extra)
    else []
  }

  /** The nodes put for the first k entries of t. */
  function WalkUpTo(path: string, t: Tree, k: nat, extra: seq<string>): seq<Node>
    requires t.Dir? && k <= |t.entries|
    decreases t, k + 1
  {
    if k == 0 then [] else WalkUpTo(path, t, k - 1, extra) + WalkEntry(path, t, k - 1, extra)
  }

  function WalkEntry(path: string, t: Tree, i: nat, extra: seq<string>): seq<Node>
    requires t.Dir? && i < |t.entries|
    decreases t, i + 1
  {
    var e := t.entries[i];
    var child := path + "/" + e.name;
    if IsExcluded(child, extra) then []
    else if TakenForDir(e) then Walk(child, e.tree, extra)
    else [FileNode(Fold(child), child)]
  }

  /** The recursive build. It leaves the index holding what `Walk` says, on top of what was there. */
  method BuildWalk(idx: Index, path: string, t: Tree, extra: seq<string>)
    requires idx.Valid()
    modifies idx, idx.buckets
    ensures idx.Valid()
    ensures idx.puts == old(idx.puts) + Walk(path, t, extra)
    decreases t
  {
    if t.File? || !t.opens {
      return;
    }
    var ents: seq<string> := [];
    var n := 0;
    while n < |t.entries|
      invariant n <= |t.entries|
      invariant ents == Names(t.entries)[..n]
    {
      ents := ents + [t.entries[n].name];
      n := n + 1;
    }
    idx.Put(DirNode(Fold(path), path, ents));
    assert ents == Names(t.entries);
    ghost var head := idx.puts;
    var i := 0;
    while i < |t.entries|
      invariant i <= |t.entries|
      invariant idx.Valid()
      invariant idx.puts == head + WalkUpTo(path, t, i, extra)
    {
      var e := t.entries[i];
      var child := path + "/" + e.name;
      i := i + 1;
      if IsExcluded(child, extra) {
        continue;
      }
      if TakenForDir(e) {
        BuildWalk(idx, child, e.tree, extra);
      } else {
        idx.Put(FileNode(Fold(child), child));
      }
    }
  }

  /** One directory's listing, without descending: "/" and "/opt". */
  method IndexOne(idx: Index, path: string, listing: Option<seq<string>>)
    requires idx.Valid()
    modifies idx, idx.buckets
    ensures idx.Valid()
    ensures idx.puts == old(idx.puts) + ListingNode(path, listing)
  {
    if listing.Some? {
      idx.Put(DirNode(Fold(path), path, listing.value));
    }
  }

  function ListingNode(path: string, listing: Option<seq<string>>): seq<Node> {
    if listing.Some? then [DirNode(Fold(path), path, listing.value)] else []
  }

  /** What the one-time initialisation reads: the listings of the two ancestors (None where opendir
      fails), and the game tree. */
  datatype Disk = Disk(top: Option<seq<string>>, opt: Option<seq<string>>, game: Tree)

  function Indexed(d: Disk, extra: seq<string>): seq<Node> {
    ListingNode("/", d.top) + ListingNode("/opt", d.opt) + Walk(GAME_ROOT, d.game, extra)
  }

  method DoInit(d: Disk, extra: seq<string>) returns (idx: Index)
    ensures fresh(idx) && fresh(idx.buckets) && idx.Valid()
    ensures idx.puts == Indexed(d, extra)
  {
    idx := new Index();
    IndexOne(idx, "/", d.top);
    IndexOne(idx, "/opt", d.opt);
    BuildWalk(idx, GAME_ROOT, d.game, extra);
  }
}
