/** Answering a read from the index: a hit, an authoritative ENOENT, or a pass through to libc. */
module Resolve {
  import opened Paths
  import opened CaseIndex
  import opened DirtySet

  const PATH_MAX := 4096

  datatype Answer = Hit(path: string) | Enoent | Passthrough

  /** The paths the cache takes responsibility for; every other one goes to libc as given. */
  predicate Tracked(path: string, extra: seq<string>) {
    && path != "" && path[0] == '/'
    && UnderRoot(path)
    && !IsExcluded(path, extra)
    && |path| < PATH_MAX
  }

  /** What the deepest indexed ancestor says about its missing child. */
  function Verdict(an: Node, child: string): Answer {
    if an.FileNode? || child in an.ents then Passthrough else Enoent
  }

  function MissAnswer(puts: seq<Node>, tmp: string): (r: Answer)
    ensures !r.Hit?
    decreases |tmp|
  {
    var s := LastSlash(tmp);
    if s <= 0 then Passthrough
    else
      match Lookup(puts, tmp[..s])
      case Some(an) => Verdict(an, tmp[s + 1..])
      case None => MissAnswer(puts, tmp[..s])
  }

  /** The answer for a path, given the puts behind the index and whether the dirty set, read through
      its gate, held the folded path. */
  function AnswerFor(puts: seq<Node>, dirty: bool, extra: seq<string>, path: string): Answer {
    if !Tracked(path, extra) then Passthrough
    else
      match Lookup(puts, Fold(path))
      case Some(nd) => if |nd.path| >= PATH_MAX then Passthrough else Hit(nd.path)
      case None => if dirty then Passthrough else MissAnswer(puts, Fold(path))
  }

  method Lists(ents: seq<string>, child: string) returns (r: bool)
    ensures r <==> child in ents
  {
    var i := 0;
    while i < |ents|
      invariant i <= |ents|
      invariant child !in ents[..i]
    {
      if ents[i] == child {
        return true;
      }
      i := i + 1;
    }
    r := false;
  }

  /** The walk up from a missing path, cutting a copy of it at its last slash again and again. */
  method WalkUp(idx: Index, cf: string) returns (r: Answer)
    requires idx.Valid()
    ensures r == MissAnswer(idx.puts, cf)
  {
    var tmp := cf;
    while true
      invariant MissAnswer(idx.puts, tmp) == MissAnswer(idx.puts, cf)
      decreases |tmp|
    {
      var s := LastSlash(tmp);
      if s <= 0 {
        break;
      }
      var child := tmp[s + 1..];
      tmp := tmp[..s];
      var an := idx.Find(tmp);
      if an.Some? {
        if an.value.FileNode? {
          return Passthrough;
        }
        var listed := Lists(an.value.ents, child);
        return if listed then Passthrough else Enoent;
      }
    }
    r := Passthrough;
  }

  /** dirty_add: only writes that could shadow an authoritative miss are remembered. */
  method DirtyAdd(dirty: Dirty, extra: seq<string>, path: string)
    requires dirty.Valid()
    modifies dirty, dirty.buckets
    ensures dirty.Valid()
    ensures dirty.keys == old(dirty.keys) + if Tracked(path, extra) then {Fold(path)} else {}
  {
    if Tracked(path, extra) {
      dirty.Insert(Fold(path));
    }
  }

  method ResolvePath(enabled: bool, idx: Index, dirty: Dirty, extra: seq<string>, path: string) returns (r: Answer)
    requires idx.Valid() && dirty.Valid()
    ensures r == if enabled then AnswerFor(idx.puts, Fold(path) in dirty.keys, extra, path) else Passthrough
  {
    if !enabled || !Tracked(path, extra) {
      return Passthrough;
    }
    var cf := Fold(path);
    var nd := idx.Find(cf);
    if nd.Some? {
      return if |nd.value.path| >= PATH_MAX then Passthrough else Hit(nd.value.path);
    }
    if dirty.nonempty {
      var has := dirty.Has(cf);
      if has {
        return Passthrough;
      }
    }
    r := WalkUp(idx, cf);
  }
}
