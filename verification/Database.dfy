/** pkg/fs/database.go: the same filesystem in two tables.  Each SQL statement is its effect on the maps. */
module Database {
  import opened Results
  import opened Paths
  import opened Files
  import opened FileLaws

  /** A row of the paths table; the root row has no parent. */
  datatype PathRow = PathRow(parent: Option<Path>, node: int)

  function ParentColumn(p: Path): Option<Path> {
    if p == ROOT then None else Some(Parent(p))
  }

  ghost function NodeColumn(paths: map<Path, PathRow>): map<Path, int> {
    map p | p in paths :: paths[p].node
  }

  ghost predicate ParentsAgree(paths: map<Path, PathRow>) {
    forall p | p in paths :: paths[p].parent == ParentColumn(p)
  }

  /** The rows whose parent column is p are the entries directly below p. */
  lemma RowsListed(paths: map<Path, PathRow>, nodes: map<int, Inode>, p: Path, rows: set<Path>)
    requires ParentsAgree(paths) && Consistent(Store(NodeColumn(paths), nodes))
    requires rows == set q | q in paths && paths[q].parent == Some(p)
    ensures forall q | q in rows :: q != ROOT && p + [q[|q| - 1]] in paths && paths[p + [q[|q| - 1]]].node in nodes
    ensures (map c | c in (set q | q in rows :: q[|q| - 1]) :: nodes[paths[p + [c]].node])
         == Listing(Store(NodeColumn(paths), nodes), p)
  {
    var s := Store(NodeColumn(paths), nodes);
    forall q | q in paths ensures Present(s, q) { assert s.paths[q] in s.paths.Values; }
    hide Consistent;
    forall q ensures q in rows <==> q in s.paths && q != p && Parent(q) == p {}
    forall q | q in rows ensures q == p + [q[|q| - 1]] { IsChild(p, q); }
    var out := map c | c in (set q | q in rows :: q[|q| - 1]) :: nodes[paths[p + [c]].node];
    forall c ensures c in out <==> p + [c] in s.paths {
      IsChild(p, p + [c]);
      assert p + [c] in rows ==> (p + [c])[|p + [c]| - 1] == c;
    }
    ListingIs(s, p, out);
  }

  lemma CreatedEntry(s: Store<int>, p: Path, inode: Inode, id: int)
    requires Tree(s) && id !in s.nodes && p !in s.paths
    ensures Execute(s, Create(p, inode), id) == Store(s.paths[p := id], s.nodes[id := inode])
  {
    var t := Execute(s, Create(p, inode), id);
    forall v | v in s.nodes ensures v in t.paths.Values {
      var q :| q in s.paths && s.paths[q] == v;
      assert t.paths[q] == v;
    }
    assert t.paths[p] == id;
    assert t.nodes == s.nodes[id := inode];
  }

  lemma NothingToGather(s: Store<int>, p: Path)
    requires Consistent(s) && p !in s.paths
    ensures Gather(s.paths - {p}, s.nodes) == s
  {
    assert s.paths - {p} == s.paths;
    assert Gather(s.paths, s.nodes).nodes == s.nodes;
  }

  /** A name deleted together with its node leaves a creation there unchanged. */
  lemma CreateAfterUnlink(s: Store<int>, t: Store<int>, p: Path, gone: int, inode: Inode, id: int)
    requires Consistent(t) && t.paths == s.paths - {p} && t.nodes == s.nodes - {gone} && id !in s.nodes
    ensures Execute(t, Create(p, inode), id) == Execute(s, Create(p, inode), id)
  {
    assert (s.paths - {p})[p := id] == s.paths[p := id];
    assert Execute(t, Create(p, inode), id).nodes == Execute(s, Create(p, inode), id).nodes;
  }

  /** Deleting a link first and then creating in its place is creating over it, and costs no quota. */
  lemma LinkGivesWay(s: Store<int>, p: Path, inode: Inode, id: int)
    requires Tree(s) && IsLink(s, p) && p != ROOT && ParentIsDirectory(s, p) && ValidName(p)
    requires id !in s.nodes
    ensures var t := Execute(s, Unlink(p), 0);
      && Tree(t) && t.paths == s.paths - {p} && t.nodes.Keys <= s.nodes.Keys
      && ParentIsDirectory(t, p) && Total(t.nodes) == Total(s.nodes)
      && Execute(t, Create(p, inode), id) == Execute(s, Create(p, inode), id)
      && Execute(s, Unlink(p), id) == t
  {
    var t := Execute(s, Unlink(p), 0);
    assert Tree(t) by {
      NonRootRegular(s, p);
      UnlinkTree(s, p, 0);
    }
    TreeRoot(t);
    LinkLeaves(s, p);
    hide Tree, Total;
    CreateAfterUnlink(s, t, p, s.paths[p], inode, id);
    hide Execute;
  }

  /** The store once what stands at the place of an unresolvable name is deleted. */
  ghost function Cleared(s: Store<int>, p: Path): Store<int> {
    if Present(s, p) then Execute(s, Unlink(p), 0) else s
  }

  lemma PlaceCleared(s: Store<int>, name: Path, inode: Inode, id: int)
    requires Tree(s) && ValidName(name) && Files.Resolve(s, name, true, ROUNDS) == Err(NotExist) && inode.kind.Regular?
    requires id !in s.nodes
    ensures Place(s, name).Ok? ==>
      var p := Place(s, name).value;
      var t := Cleared(s, p);
      && Tree(t) && t.paths == s.paths - {p} && t.nodes.Keys <= s.nodes.Keys && Total(t.nodes) == Total(s.nodes)
      && Sound(t, Create(p, inode)) && Execute(t, Create(p, inode), id) == Execute(s, Create(p, inode), id)
      && t == Execute(s, if Present(s, p) then Unlink(p) else Keep, id)
  {
    PlaceOfMissing(s, name, true);
    TreeRoot(s);
    hide Tree, Total, Files.Resolve;
    if Place(s, name).Ok? {
      var p := Place(s, name).value;
      if Present(s, p) {
        LinkGivesWay(s, p, inode, id);
      } else {
        assert p !in s.paths && s.paths - {p} == s.paths;
      }
    }
    hide Execute;
  }

  /** A symbolic link takes its node with it, and no byte of data. */
  lemma LinkLeaves(s: Store<int>, p: Path)
    requires Tree(s) && IsLink(s, p)
    ensures var t := Execute(s, Unlink(p), 0);
      t.paths == s.paths - {p} && t.nodes == s.nodes - {s.paths[p]} && Total(t.nodes) == Total(s.nodes)
  {
    var t := Execute(s, Unlink(p), 0);
    var gone := s.paths[p];
    forall v ensures v in t.nodes <==> v in s.nodes - {gone} {
      if v in s.nodes && v != gone {
        var q :| q in s.paths && s.paths[q] == v;
        assert t.paths[q] == v;
      }
      forall q | q in s.paths && q != p ensures s.paths[q] != gone { assert Unshared(s, p, q); }
    }
    assert t.nodes == s.nodes - {gone};
    TotalRemove(s.nodes, gone);
    assert Bare(s, p);
  }

  lemma AppendCreatesLikeWrite(s: Store<int>, name: Path, data: Bytes, limit: int)
    requires ValidName(name) && Files.Resolve(s, name, true, ROUNDS) == Err(NotExist) && !Exceeds(s, limit, |data|)
    ensures AppendPlan(InTables, s, name, data, limit) == WritePlan(InTables, s, name, data, limit)
  {
  }

  // ------------------------------------------------------ row-by-row renaming

  /** The paths table when exactly the rows in done have been moved. */
  ghost function PartlyMoved(start: map<Path, PathRow>, from: Path, to: Path, done: set<Path>): map<Path, PathRow>
    requires done <= start.Keys && forall q | q in done :: Within(from, q)
  {
    assert forall q | q in done :: Within(from, q) && |from| <= |q|;
    var moved := set q | q in done :: to + q[|from|..];
    assert forall q | q in done :: from + (to + q[|from|..])[|to|..] == q;
    map k | k in start.Keys + moved && (k in moved || k !in done) ::
      if k in moved then PathRow(ParentColumn(k), start[from + k[|to|..]].node) else start[k]
  }

  lemma PartlyMovedRows(start: map<Path, PathRow>, from: Path, to: Path, done: set<Path>)
    requires done <= start.Keys && forall q | q in done :: Within(from, q)
    requires forall q | q in start :: !(to <= q)
    ensures var m := PartlyMoved(start, from, to, done);
      && (forall k :: k in m <==> if to <= k then from + k[|to|..] in done else k in start && k !in done)
      && (forall k | k in m :: m[k] ==
            if to <= k then PathRow(ParentColumn(k), start[from + k[|to|..]].node) else start[k])
  {
    var m := PartlyMoved(start, from, to, done);
    forall k ensures k in m <==> if to <= k then from + k[|to|..] in done else k in start && k !in done {
      var back := if to <= k then from + k[|to|..] else k;
      if to <= k {
        assert back[|from|..] == k[|to|..] && to + k[|to|..] == k;
        forall q | q in done && to + q[|from|..] == k ensures q == back { assert q == from + q[|from|..]; }
      }
    }
  }

  /** The primary key holds at every intermediate state, whatever the order of the updates: the next
      row is still under its old path and its new path names no row. */
  lemma PrimaryKeyHolds(start: map<Path, PathRow>, from: Path, to: Path, done: set<Path>, q: Path)
    requires done <= start.Keys && forall r | r in done :: Within(from, r)
    requires !Within(from, to) && forall r | r in start :: !(to <= r)
    requires q in start && Within(from, q) && q !in done
    ensures var m := PartlyMoved(start, from, to, done);
      && q in m && m[q] == start[q] && to + q[|from|..] !in m
      && PartlyMoved(start, from, to, done + {q})
           == (m - {q})[to + q[|from|..] := PathRow(ParentColumn(to + q[|from|..]), m[q].node)]
  {
    hide PartlyMoved;
    PartlyMovedRows(start, from, to, done);
    PartlyMovedRows(start, from, to, done + {q});
    var next := to + q[|from|..];
    assert from + next[|to|..] == q;
    forall k | to <= k && from + k[|to|..] == q ensures k == next { assert k == to + k[|to|..]; }
  }

  /** When every row has been moved the table is the simultaneous rename of the subtree. */
  lemma AllMoved(start: map<Path, PathRow>, from: Path, to: Path, done: set<Path>)
    requires to != ROOT && !Within(from, to) && forall q | q in start :: !(to <= q)
    requires done == set q | q in start && Within(from, q)
    ensures NodeColumn(PartlyMoved(start, from, to, done)) == Relocated(NodeColumn(start), from, to)
    ensures ParentsAgree(start) ==> ParentsAgree(PartlyMoved(start, from, to, done))
  {
    PartlyMovedRows(start, from, to, done);
    RelocatedEntries(NodeColumn(start), from, to);
    hide PartlyMoved, Relocated;
    var m, r := NodeColumn(PartlyMoved(start, from, to, done)), Relocated(NodeColumn(start), from, to);
    forall k ensures k in m <==> k in r {
      assert to <= k ==> Origin(from, to, k) == from + k[|to|..];
    }
  }

  /** Anything but the root lies below some entry of the root directory. */
  lemma TopLevelEntry(s: Store<int>, from: Path)
    requires Tree(s) && from in s.paths
    ensures from != ROOT ==> exists q | q in s.paths :: q != ROOT && Parent(q) == ROOT
  {
    if from != ROOT {
      if |from| > 1 {
        Ancestors(s, from, 1);
      } else {
        assert from[..1] == from;
      }
      assert Parent(from[..1]) == ROOT;
    }
  }

  /** A removal that passed its check leads to a tree within the quota. */
  lemma UnlinkShrinks(s: Store<int>, p: Path, id: int)
    requires Tree(s) && Sound(s, Unlink(p)) && id !in s.nodes
    ensures var t := Execute(s, Unlink(p), 0); Tree(t) && Total(t.nodes) <= Total(s.nodes)
  {
    UnlinkTree(s, p, 0);
    EffectTotal(s, Unlink(p), id);
  }

  lemma PruneShrinks(s: Store<int>, p: Path, id: int)
    requires Tree(s) && Sound(s, Prune(p)) && id !in s.nodes
    ensures var t := Execute(s, Prune(p), 0); Tree(t) && Total(t.nodes) <= Total(s.nodes)
  {
    PruneTree(s, p, 0);
    EffectTotal(s, Prune(p), id);
    PruneIgnoresId(s, p, id);
  }

  lemma RemoveProceeds(s: Store<int>, name: Path, p: Path)
    requires Tree(s) && name != ROOT && Files.Resolve(s, name, false, ROUNDS) == Ok(p)
    requires !(IsDirectory(s, p) && HasChildren(s, p))
    ensures RemovePlan(s, name) == Perform(Unlink(p)) && Sound(s, Unlink(p))
  {
    RemovePlansSound(s, name);
  }

  // -------------------------------------------------------------- MkdirAll

  datatype Made = Made(store: Store<int>, nextId: int, outcome: Outcome)

  /** MkdirAll: the leading k names made one after the other, where existing ones are skipped. */
  ghost function MkdirEach(s: Store<int>, id: int, name: Path, k: nat, limit: int): Made
    requires k <= |name|
    decreases k
  {
    if k == 0 then Made(s, id, Done)
    else
      var up := MkdirEach(s, id, name, k - 1, limit);
      if up.outcome != Done then up
      else
        var plan := CreatePlan(up.store, name[..k], DirNode(), true, limit);
        if plan.outcome == Done || plan.outcome == Failed(Exist) then
          Made(Execute(up.store, plan.effect, up.nextId), up.nextId + (if plan.effect.Create? then 1 else 0), Done)
        else Made(up.store, up.nextId, plan.outcome)
  }

  lemma {:induction false} MkdirStops(s: Store<int>, id: int, name: Path, j: nat, k: nat, limit: int)
    requires j <= k <= |name| && MkdirEach(s, id, name, j, limit).outcome != Done
    ensures MkdirEach(s, id, name, k, limit) == MkdirEach(s, id, name, j, limit)
    decreases k
  {
    if j < k {
      MkdirStops(s, id, name, j, k - 1, limit);
    }
  }

  lemma TreeRoot(s: Store<int>)
    requires Tree(s)
    ensures Consistent(s) && IsDirectory(s, ROOT) && ROOT in s.paths
  {
  }

  lemma MoveIgnoresId(s: Store<int>, from: Path, to: Path, id: int)
    ensures Execute(s, Move(from, to), id) == Execute(s, Move(from, to), 0)
  {
  }

  lemma PruneIgnoresId(s: Store<int>, p: Path, id: int)
    ensures Execute(s, Prune(p), id) == Execute(s, Prune(p), 0)
  {
  }

  class Database {
    var paths: map<Path, PathRow>
    var nodes: map<int, Inode>
    var nextId: int
    const limit: int

    ghost function Abs(): Store<int>
      reads this
    {
      Store(NodeColumn(paths), nodes)
    }

    /** Row ids are drawn in order and never reused. */
    ghost predicate IdsBelowNext()
      reads this
    {
      0 <= nextId && forall id | id in nodes :: 0 <= id < nextId
    }

    /** Table integrity at operation boundaries. */
    ghost predicate Valid()
      reads this
    {
      && Tree(Abs()) && ParentsAgree(paths) && IdsBelowNext()
      && (limit > 0 ==> Total(nodes) <= limit)
    }

    constructor (limit: int)
      ensures Valid() && this.limit == limit
      ensures Abs().paths.Keys == {ROOT} && Abs().nodes.Values == {DirNode()}
    {
      nodes, nextId, this.limit := map[1 := DirNode()], 2, limit;
      paths := map[ROOT := PathRow(None, 1)];
      new;
      assert Abs().paths == map[ROOT := 1] && Abs().paths[ROOT] == 1 && Abs().paths.Values == {1};
      TotalRemove(nodes, 1);
      assert nodes - {1} == map[];
    }

    // -------------------------------------------------------------- statements

    /** SELECT ... WHERE path IN (names), joined with the nodes. */
    method Lookup(names: seq<Path>) returns (found: map<Path, int>)
      ensures found == map p | p in names && Present(Abs(), p) :: paths[p].node
    {
      found := map p | p in names && p in paths && paths[p].node in nodes :: paths[p].node;
    }

    /** INSERT INTO nodes ... RETURNING id. */
    method InsertNode(inode: Inode) returns (id: int)
      requires IdsBelowNext()
      modifies this`nodes, this`nextId
      ensures id == old(nextId) && id !in old(nodes) && nodes == old(nodes)[id := inode]
      ensures nextId == old(nextId) + 1 && IdsBelowNext()
    {
      id := nextId;
      nodes, nextId := nodes[id := inode], nextId + 1;
    }

    /** INSERT INTO paths; the path column is the primary key. */
    method InsertPath(p: Path, id: int)
      requires p !in paths
      modifies this`paths
      ensures paths == old(paths)[p := PathRow(ParentColumn(p), id)]
    {
      paths := paths[p := PathRow(ParentColumn(p), id)];
    }

    /** DELETE FROM nodes WHERE id NOT IN (SELECT node FROM paths). */
    method Collect()
      modifies this`nodes
      ensures Abs() == Gather(old(Abs()).paths, old(nodes))
    {
      var used := set p | p in paths :: paths[p].node;
      nodes := map id | id in nodes && id in used :: nodes[id];
      assert used == NodeColumn(paths).Values by {
        assert forall p | p in paths :: NodeColumn(paths)[p] == paths[p].node;
      }
    }

    /** SELECT COALESCE(SUM(LENGTH(data)), 0) FROM nodes: a scan in row order. */
    method UsedBytes() returns (used: int)
      requires IdsBelowNext()
      ensures used == Total(nodes)
    {
      used := 0;
      ghost var unread := nodes;
      var id := 0;
      while id < nextId
        invariant unread == map k | k in nodes && id <= k :: nodes[k]
        invariant used + Total(unread) == Total(nodes)
      {
        if id in nodes {
          TotalRemove(unread, id);
          used := used + |nodes[id].data|;
        } else {
          assert unread - {id} == unread;
        }
        unread := unread - {id};
        id := id + 1;
      }
      assert unread == map[];
    }

    method CheckQuota(delta: int) returns (over: bool)
      requires IdsBelowNext()
      ensures over == Exceeds(Abs(), limit, delta)
    {
      if limit <= 0 || delta <= 0 {
        return false;
      }
      var used := UsedBytes();
      return used + delta > limit;
    }

    // -------------------------------------------------------------- resolution

    /** One query for a name and everything above it. */
    method LookupPrefixes(parts: Path) returns (found: map<Path, int>)
      ensures forall p | p in found :: Present(Abs(), p) && found[p] == paths[p].node
      ensures forall j {:trigger parts[..j]} | 0 <= j <= |parts| :: parts[..j] in found <==> Present(Abs(), parts[..j])
    {
      var prefixes := [ROOT];
      var k := 0;
      while k < |parts|
        invariant 0 <= k <= |parts| && |prefixes| == k + 1
        invariant forall j | 0 <= j <= k :: prefixes[j] == parts[..j]
      {
        prefixes := prefixes + [parts[..k + 1]];
        k := k + 1;
      }
      found := Lookup(prefixes);
      forall j | 0 <= j <= |parts| ensures parts[..j] in found <==> Present(Abs(), parts[..j]) {
        assert prefixes[j] in prefixes;
      }
    }

    method Resolve(name: Path, followFinal: bool) returns (r: Result<Path>)
      ensures r == Files.Resolve(Abs(), name, followFinal, ROUNDS)
      ensures r.Ok? && ROOT in paths ==> r.value in paths
      ensures r.Ok? && IsDirectory(Abs(), ROOT) ==> Present(Abs(), r.value)
    {
      var current := name;
      for links := 0 to 41
        invariant Files.Resolve(Abs(), name, followFinal, ROUNDS) ==
          Files.Resolve(Abs(), current, followFinal, ROUNDS - links)
      {
        if !ValidName(current) {
          return Err(Invalid);
        }
        var parts := current;
        var found := LookupPrefixes(parts);
        var restart, i := false, 0;
        while i < |parts| && !restart
          invariant 0 <= i <= |parts|
          invariant !restart ==>
            current == parts && Scan(Abs(), parts, followFinal, 0) == Scan(Abs(), parts, followFinal, i)
          invariant restart ==> Scan(Abs(), parts, followFinal, 0) == Redirected(current)
          invariant !restart && i > 0 && i == |parts| ==> Present(Abs(), parts)
          decreases |parts| - i, !restart
        {
          var cur := parts[..i + 1];
          if cur !in found {
            return Err(NotExist);
          }
          var n, final := nodes[found[cur]], i == |parts| - 1;
          if n.kind == Kind.Symlink && (followFinal || !final) {
            current, restart := Redirect(cur, n.target, parts[i + 1..]), true;
          } else if !final && n.kind != Directory {
            return Err(NotDir);
          } else {
            i := i + 1;
            assert i == |parts| ==> cur == parts;
          }
        }
        if !restart {
          return Ok(current);
        }
      }
      return Err(Loop);
    }

    method ResolveParent(name: Path) returns (r: Result<Path>)
      requires IsDirectory(Abs(), ROOT)
      ensures r == Place(Abs(), name)
    {
      var parent := Resolve(Parent(name), true);
      if parent.Err? {
        return Err(parent.error);
      }
      if nodes[paths[parent.value].node].kind != Directory {
        return Err(NotDir);
      }
      return Ok(Child(parent.value, name));
    }

    // ----------------------------------------------------------------- reading

    method ReadFile(name: Path) returns (r: Result<Bytes>)
      requires Valid()
      ensures r == ReadFileOf(Abs(), name)
    {
      var resolved := Resolve(name, true);
      if resolved.Err? {
        return Err(resolved.error);
      }
      var n := nodes[paths[resolved.value].node];
      if n.kind == Directory {
        return Err(IsDir);
      }
      return Ok(n.data);
    }

    method Stat(name: Path, follow: bool) returns (r: Result<Inode>)
      requires Valid()
      ensures r == StatOf(Abs(), name, follow)
    {
      var resolved := Resolve(name, follow);
      if resolved.Err? {
        return Err(resolved.error);
      }
      return Ok(nodes[paths[resolved.value].node]);
    }

    method Readlink(name: Path) returns (r: Result<Target>)
      requires Valid()
      ensures r == ReadlinkOf(Abs(), name)
    {
      var resolved := Resolve(name, false);
      if resolved.Err? {
        return Err(resolved.error);
      }
      var n := nodes[paths[resolved.value].node];
      if n.kind != Kind.Symlink {
        return Err(NotALink);
      }
      return Ok(n.target);
    }

    /** SELECT ... WHERE parent = ?: the listing goes by the parent column. */
    method ReadDir(name: Path) returns (r: Result<map<string, Inode>>)
      requires Valid()
      ensures r == ReadDirOf(Abs(), name)
    {
      var resolved := Resolve(name, true);
      if resolved.Err? {
        return Err(resolved.error);
      }
      var p := resolved.value;
      if nodes[paths[p].node].kind != Directory {
        return Err(NotDir);
      }
      var rows := set q | q in paths && paths[q].parent == Some(p);
      RowsListed(paths, nodes, p, rows);
      return Ok(map c | c in (set q | q in rows :: q[|q| - 1]) :: nodes[paths[p + [c]].node]);
    }

    // ---------------------------------------------------------------- creation

    /** SELECT 1 FROM paths WHERE parent = ? LIMIT 1. */
    method RowsBelow(p: Path) returns (found: bool)
      ensures found == exists q | q in paths :: paths[q].parent == Some(p)
    {
      var rows := set q | q in paths && paths[q].parent == Some(p);
      found := rows != {};
      assert forall q :: q in rows <==> q in paths && paths[q].parent == Some(p);
    }

    method DeletePath(p: Path)
      modifies this`paths, this`nodes
      ensures paths == old(paths) - {p}
      ensures Abs() == Execute(old(Abs()), Unlink(p), 0)
      ensures nodes.Keys <= old(nodes.Keys) && (old(ParentsAgree(paths)) ==> ParentsAgree(paths))
    {
      paths := paths - {p};
      assert NodeColumn(paths) == old(NodeColumn(paths)) - {p};
      Collect();
    }

    /** Where a new entry goes; an entry already there is an obstacle or, when replacing, is deleted. */
    method PrepareCreate(name: Path, replace: bool) returns (r: Result<Path>)
      requires IsDirectory(Abs(), ROOT) && Consistent(Abs())
      modifies this`paths, this`nodes
      ensures var place := old(Place(Abs(), name));
        if place.Err? then r == place && Abs() == old(Abs()) && paths == old(paths)
        else if !old(Present(Abs(), place.value)) then r == place && Abs() == old(Abs()) && paths == old(paths)
        else if !replace then r == Err(Exist) && Abs() == old(Abs()) && paths == old(paths)
        else r == place && Abs() == Execute(old(Abs()), Unlink(place.value), 0) && paths == old(paths) - {place.value}
      ensures !replace ==> unchanged(this)
    {
      r := ResolveParent(name);
      if r.Err? {
        return;
      }
      var p := r.value;
      var existing := Lookup([p]);
      assert p in existing <==> Present(Abs(), p);
      if p !in existing {
        return;
      }
      if !replace {
        return Err(Exist);
      }
      DeletePath(p);
    }

    /** INSERT INTO nodes, then INSERT INTO paths. */
    method CreateEntry(p: Path, inode: Inode)
      requires p !in paths && IdsBelowNext()
      modifies this`paths, this`nodes, this`nextId
      ensures paths == old(paths)[p := PathRow(ParentColumn(p), old(nextId))]
      ensures nodes == old(nodes)[old(nextId) := inode]
      ensures nextId == old(nextId) + 1 && IdsBelowNext()
    {
      var id := InsertNode(inode);
      InsertPath(p, id);
    }

    /** A new entry, with the integrity it keeps. */
    method Insert(p: Path, inode: Inode)
      requires Valid() && Sound(Abs(), Create(p, inode)) && p !in paths
      requires limit > 0 ==> Total(nodes) + |inode.data| <= limit
      modifies this`paths, this`nodes, this`nextId
      ensures Abs() == Execute(old(Abs()), Create(p, inode), old(nextId)) && nextId == old(nextId) + 1
      ensures Valid()
    {
      ghost var before, id := Abs(), nextId;
      CreateTree(before, p, inode, id);
      CreateTotal(before, p, inode, id);
      CreatedEntry(before, p, inode, id);
      hide Tree, Total, Sound, Execute;
      CreateEntry(p, inode);
      assert Abs().paths == before.paths[p := id];
    }

    /** The row of an existing node gets new data. */
    method UpdateData(p: Path, data: Bytes)
      requires Valid() && IsKind(Abs(), p, Regular)
      requires limit > 0 ==> Total(nodes) - |At(Abs(), p).data| + |data| <= limit
      modifies this`nodes
      ensures Abs() == Execute(old(Abs()), SetData(p, data), nextId)
      ensures Valid()
    {
      SetDataTree(Abs(), p, data, nextId);
      var id := paths[p].node;
      TotalUpdate(nodes, id, nodes[id].(data := data));
      hide Tree, Total;
      nodes := nodes[id := nodes[id].(data := data)];
    }

    method CreateFile(name: Path, data: Bytes) returns (outcome: Outcome)
      requires Valid()
      modifies this`paths, this`nodes, this`nextId
      ensures var plan := old(CreatePlan(Abs(), name, FileNode(data), false, limit));
        outcome == plan.outcome && Abs() == Execute(old(Abs()), plan.effect, old(nextId))
      ensures Valid()
    {
      CreatePlanSound(Abs(), name, FileNode(data), false, limit);
      hide Tree, Total, Sound;
      if !ValidName(name) {
        return Failed(Invalid);
      }
      var existing := Resolve(name, false);
      if existing.Ok? {
        return Failed(Exist);
      } else if existing.error != NotExist {
        return Failed(existing.error);
      }
      var place := PrepareCreate(name, false);
      if place.Err? {
        return Failed(place.error);
      }
      var over := CheckQuota(|data|);
      if over {
        return Failed(Quota);
      }
      Insert(place.value, FileNode(data));
      return Done;
    }

    /** Deleting what a creation replaces keeps the tables whole and leaves the creation the same effect. */
    method PrepareOver(name: Path, inode: Inode) returns (place: Result<Path>)
      requires Valid() && ValidName(name) && Files.Resolve(Abs(), name, true, ROUNDS) == Err(NotExist)
        && inode.kind.Regular?
      modifies this`paths, this`nodes
      ensures Valid() && place == old(Place(Abs(), name)) && Total(nodes) == old(Total(nodes))
      ensures place.Err? ==> Abs() == old(Abs())
      ensures place.Ok? ==>
        && place.value !in paths && Sound(Abs(), Create(place.value, inode))
        && Abs() == Execute(old(Abs()), if old(Present(Abs(), place.value)) then Unlink(place.value) else Keep, nextId)
        && Execute(Abs(), Create(place.value, inode), nextId) == Execute(old(Abs()), Create(place.value, inode), nextId)
    {
      hide Tree, Total, Files.Resolve, Execute, Sound;
      TreeRoot(Abs());
      PlaceCleared(Abs(), name, inode, nextId);
      place := PrepareCreate(name, true);
    }

    /** The creating branch of WriteFile: a dangling link in the way goes before the quota is looked at. */
    method CreateOver(name: Path, data: Bytes) returns (outcome: Outcome)
      requires Valid() && ValidName(name) && Files.Resolve(Abs(), name, true, ROUNDS) == Err(NotExist)
      modifies this`paths, this`nodes, this`nextId
      ensures var plan := old(WritePlan(InTables, Abs(), name, data, limit));
        outcome == plan.outcome && Abs() == Execute(old(Abs()), plan.effect, old(nextId))
      ensures Valid()
    {
      hide Tree, Total, Sound, ParentsAgree, Consistent;
      assert Execute(Abs(), Keep, nextId) == Abs();
      hide Execute;
      var place := PrepareOver(name, FileNode(data));
      if place.Err? {
        return Failed(place.error);
      }
      var over := CheckQuota(|data|);
      if over {
        return Failed(Quota);
      }
      Insert(place.value, FileNode(data));
      return Done;
    }

    method WriteFile(name: Path, data: Bytes) returns (outcome: Outcome)
      requires Valid()
      modifies this`paths, this`nodes, this`nextId
      ensures var plan := old(WritePlan(InTables, Abs(), name, data, limit));
        outcome == plan.outcome && Abs() == Execute(old(Abs()), plan.effect, old(nextId))
      ensures Valid()
    {
      if !ValidName(name) {
        return Failed(Invalid);
      }
      var resolved := Resolve(name, true);
      if resolved.Err? && resolved.error != NotExist {
        return Failed(resolved.error);
      }
      if resolved.Err? {
        outcome := CreateOver(name, data);
        return;
      }
      ResolveSound(Abs(), name, true, ROUNDS);
      var p := resolved.value;
      hide Tree, Total, Files.Resolve;
      var n := nodes[paths[p].node];
      if n.kind == Directory {
        return Failed(IsDir);
      }
      var over := CheckQuota(|data| - |n.data|);
      if over {
        return Failed(Quota);
      }
      UpdateData(p, data);
      return Done;
    }

    /** The quota is looked at before anything but the resolution of the name. */
    method AppendFile(name: Path, data: Bytes) returns (outcome: Outcome)
      requires Valid()
      modifies this`paths, this`nodes, this`nextId
      ensures var plan := old(AppendPlan(InTables, Abs(), name, data, limit));
        outcome == plan.outcome && Abs() == Execute(old(Abs()), plan.effect, old(nextId))
      ensures Valid()
    {
      if !ValidName(name) {
        return Failed(Invalid);
      }
      var resolved := Resolve(name, true);
      if resolved.Err? && resolved.error != NotExist {
        return Failed(resolved.error);
      }
      var over := CheckQuota(|data|);
      if over {
        return Failed(Quota);
      }
      if resolved.Err? {
        AppendCreatesLikeWrite(Abs(), name, data, limit);
        outcome := CreateOver(name, data);
        return;
      }
      var p := resolved.value;
      hide Tree, Total, Files.Resolve;
      var n := nodes[paths[p].node];
      if n.kind != Regular {
        return Failed(IsDir);
      }
      UpdateData(p, n.data + data);
      return Done;
    }

    method Mkdir(name: Path) returns (outcome: Outcome)
      requires Valid()
      modifies this`paths, this`nodes, this`nextId
      ensures var plan := old(CreatePlan(Abs(), name, DirNode(), true, limit));
        outcome == plan.outcome && Abs() == Execute(old(Abs()), plan.effect, old(nextId))
        && nextId == old(nextId) + if plan.effect.Create? then 1 else 0
      ensures Valid()
    {
      CreatePlanSound(Abs(), name, DirNode(), true, limit);
      hide Tree, Total, Sound;
      if !ValidName(name) {
        return Failed(Invalid);
      }
      var existing := Resolve(name, true);
      if existing.Ok? {
        return Failed(Exist);
      } else if existing.error != NotExist {
        return Failed(existing.error);
      }
      var place := PrepareCreate(name, false);
      if place.Err? {
        return Failed(place.error);
      }
      Insert(place.value, DirNode());
      return Done;
    }

    method MkdirAll(name: Path) returns (outcome: Outcome)
      requires Valid()
      modifies this`paths, this`nodes, this`nextId
      ensures !ValidName(name) ==> outcome == Failed(Invalid) && Abs() == old(Abs()) && nextId == old(nextId)
      ensures ValidName(name) ==>
        Made(Abs(), nextId, outcome) == MkdirEach(old(Abs()), old(nextId), name, |name|, limit)
      ensures Valid()
    {
      if !ValidName(name) {
        return Failed(Invalid);
      }
      var k := 0;
      while k < |name|
        invariant 0 <= k <= |name| && Valid()
        invariant Made(Abs(), nextId, Done) == MkdirEach(old(Abs()), old(nextId), name, k, limit)
      {
        k := k + 1;
        var made := Mkdir(name[..k]);
        if made != Done && made != Failed(Exist) {
          hide CreatePlan, Execute, Tree, Total;
          MkdirStops(old(Abs()), old(nextId), name, k, |name|, limit);
          return made;
        }
      }
      return Done;
    }

    method Symlink(target: Target, name: Path) returns (outcome: Outcome)
      requires Valid()
      modifies this`paths, this`nodes, this`nextId
      ensures var plan := old(CreatePlan(Abs(), name, LinkNode(target), false, limit));
        outcome == plan.outcome && Abs() == Execute(old(Abs()), plan.effect, old(nextId))
      ensures Valid()
    {
      CreatePlanSound(Abs(), name, LinkNode(target), false, limit);
      hide Tree, Total, Sound;
      if !ValidName(name) {
        return Failed(Invalid);
      }
      var existing := Resolve(name, false);
      if existing.Ok? {
        return Failed(Exist);
      } else if existing.error != NotExist {
        return Failed(existing.error);
      }
      var place := PrepareCreate(name, false);
      if place.Err? {
        return Failed(place.error);
      }
      Insert(place.value, LinkNode(target));
      return Done;
    }

    method Link(name: Path, newName: Path) returns (outcome: Outcome)
      requires Valid()
      modifies this`paths, this`nodes
      ensures var plan := old(LinkPlan(InTables, Abs(), name, newName));
        outcome == plan.outcome && Abs() == Execute(old(Abs()), plan.effect, nextId)
      ensures Valid()
    {
      TreeRoot(Abs());
      hide Tree, Total, Files.Resolve, Sound, ParentsAgree, Consistent;
      LinkPlanSound(InTables, Abs(), name, newName);
      assert Execute(Abs(), Keep, nextId) == Abs();
      hide Execute;
      if !ValidName(newName) {
        return Failed(Invalid);
      }
      var resolved := Resolve(name, true);
      if resolved.Err? {
        return Failed(resolved.error);
      }
      var source := resolved.value;
      if nodes[paths[source].node].kind != Regular {
        return Failed(NotRegular);
      }
      var existing := Resolve(newName, false);
      if existing.Ok? {
        return Failed(Exist);
      } else if existing.error != NotExist {
        return Failed(existing.error);
      }
      ghost var before := Abs();
      var place := PrepareCreate(newName, false);
      if place.Err? {
        return Failed(place.error);
      }
      InsertAlias(source, place.value);
      return Done;
    }

    /** A second name for the node of an existing row. */
    method InsertAlias(source: Path, p: Path)
      requires Valid() && Sound(Abs(), Alias(source, p)) && p !in paths
      modifies this`paths
      ensures Valid() && Abs() == Execute(old(Abs()), Alias(source, p), nextId)
    {
      ghost var before := Abs();
      AliasTree(before, source, p, nextId);
      hide Tree, Total;
      InsertPath(p, paths[source].node);
      assert Abs().paths == before.paths[p := before.paths[source]];
    }

    method Touch(name: Path) returns (outcome: Outcome)
      requires Valid()
      ensures outcome == TouchPlan(Abs(), name).outcome
    {
      var resolved := Resolve(name, true);
      if resolved.Err? {
        return Failed(resolved.error);
      }
      return Done;
    }

    // ----------------------------------------------------------------- removal

    /** The parent column tells whether a directory other than the root is populated. */
    method HasChildren(p: Path) returns (found: bool)
      requires ParentsAgree(paths) && (p == ROOT ==> exists q | q in paths :: q != ROOT && Parent(q) == ROOT)
      ensures found == Files.HasChildren(Abs(), p)
    {
      found := RowsBelow(p);
      assert forall q | q in paths :: paths[q].parent == ParentColumn(q);
      assert Parent(ROOT) == ROOT;
    }

    method PopulatedDirectory(p: Path) returns (populated: bool)
      requires ParentsAgree(paths) && Present(Abs(), p) && p != ROOT
      ensures populated == (IsDirectory(Abs(), p) && Files.HasChildren(Abs(), p))
    {
      if nodes[paths[p].node].kind != Directory {
        return false;
      }
      populated := HasChildren(p);
    }

    method Remove(name: Path) returns (outcome: Outcome)
      requires Valid()
      modifies this`paths, this`nodes
      ensures var plan := old(RemovePlan(Abs(), name));
        outcome == plan.outcome && Abs() == Execute(old(Abs()), plan.effect, 0)
      ensures Valid()
    {
      TreeRoot(Abs());
      hide Tree, Total, Consistent, Files.Resolve, Execute, ParentsAgree;
      if !ValidName(name) {
        return Failed(Invalid);
      }
      if name == ROOT {
        return Failed(RootRemoval);
      }
      var resolved := Resolve(name, false);
      if resolved.Err? {
        return Failed(resolved.error);
      }
      ResolveSound(Abs(), name, false, ROUNDS);
      var p := resolved.value;
      var populated := PopulatedDirectory(p);
      if populated {
        return Failed(NotEmpty);
      }
      RemoveProceeds(Abs(), name, p);
      hide RemovePlan, Files.HasChildren, Sound;
      DeleteEntry(p);
      return Done;
    }

    /** Deletes an entry with nothing below it. */
    method DeleteEntry(p: Path)
      requires Valid() && Sound(Abs(), Unlink(p))
      modifies this`paths, this`nodes
      ensures Valid() && Abs() == Execute(old(Abs()), Unlink(p), 0)
    {
      hide Tree, Total, Execute, Sound, ParentsAgree;
      UnlinkShrinks(Abs(), p, nextId);
      DeletePath(p);
    }

    method RemoveAll(name: Path) returns (outcome: Outcome)
      requires Valid()
      modifies this`paths, this`nodes
      ensures var plan := old(RemoveAllPlan(Abs(), name));
        outcome == plan.outcome && Abs() == Execute(old(Abs()), plan.effect, 0)
      ensures Valid()
    {
      TreeRoot(Abs());
      hide Tree, Total, Consistent, Files.Resolve, Execute, ParentsAgree;
      if !ValidName(name) {
        return Failed(Invalid);
      }
      if name == ROOT {
        return Failed(RootRemoval);
      }
      RemovePlansSound(Abs(), name);
      var resolved := Resolve(name, false);
      if resolved.Err? {
        return if resolved.error == NotExist then Done else Failed(resolved.error);
      }
      var p := resolved.value;
      hide Sound;
      RemoveSubtree(p);
      return Done;
    }

    /** DELETE FROM paths WHERE path = ? OR the path starts with the prefix. */
    method RemoveSubtree(p: Path)
      requires Valid() && Sound(Abs(), Prune(p))
      modifies this`paths, this`nodes
      ensures Valid() && Abs() == Execute(old(Abs()), Prune(p), 0)
    {
      hide Tree, Total, Sound, Consistent;
      PruneShrinks(Abs(), p, nextId);
      paths := map q | q in paths && !Within(p, q) :: paths[q];
      assert NodeColumn(paths) == Without(old(NodeColumn(paths)), p);
      Collect();
    }

    // ------------------------------------------------------------------ rename

    /** UPDATE paths SET path = ?, parent = ? WHERE path = ?; refused when the new path has a row. */
    method UpdatePath(current: Path, moved: Path) returns (ok: bool)
      requires current in paths
      modifies this`paths
      ensures ok <==> moved == current || moved !in old(paths)
      ensures paths == if ok
        then (old(paths) - {current})[moved := PathRow(ParentColumn(moved), old(paths)[current].node)] else old(paths)
    {
      if moved != current && moved in paths {
        return false;
      }
      paths := (paths - {current})[moved := PathRow(ParentColumn(moved), paths[current].node)];
      return true;
    }

    method MovePaths(from: Path, to: Path)
      requires ParentsAgree(paths) && to != ROOT && !Within(from, to) && forall q | q in paths :: !(to <= q)
      modifies this`paths
      ensures NodeColumn(paths) == Relocated(old(NodeColumn(paths)), from, to) && ParentsAgree(paths)
    {
      ghost var start := paths;
      var moves := set q | q in paths && Within(from, q);
      ghost var done: set<Path> := {};
      ghost var all := moves;
      assert PartlyMoved(start, from, to, done) == start;
      while moves != {}
        invariant moves == all - done && done <= all
        invariant paths == PartlyMoved(start, from, to, done)
      {
        var current :| current in moves;
        PrimaryKeyHolds(start, from, to, done, current);
        var ok := UpdatePath(current, to + current[|from|..]);
        assert ok;
        moves, done := moves - {current}, done + {current};
      }
      AllMoved(start, from, to, done);
    }

    /** A successful rename of the root leaves no tree behind; every other call keeps Valid. */
    method Rename(name: Path, newName: Path) returns (outcome: Outcome)
      requires Valid()
      modifies this`paths, this`nodes
      ensures var plan := old(RenamePlan(Abs(), name, newName));
        outcome == plan.outcome && Abs() == Execute(old(Abs()), plan.effect, 0)
      ensures name != ROOT || outcome != Done ==> Valid()
    {
      TreeRoot(Abs());
      hide Tree, Total, Files.Resolve, Execute, ParentsAgree, Obstacle;
      if !ValidName(name) {
        return Failed(Invalid);
      }
      if !ValidName(newName) {
        return Failed(Invalid);
      }
      var resolved := Resolve(name, false);
      if resolved.Err? {
        return Failed(resolved.error);
      }
      var from := resolved.value;
      var place := ResolveParent(newName);
      if place.Err? {
        return Failed(place.error);
      }
      var to := place.value;
      if Within(from, to) {
        return Failed(IntoItself);
      }
      var obstacle := CheckTarget(from, to);
      if obstacle.Some? {
        return Failed(obstacle.value);
      }
      RenameProceeds(Abs(), name, newName, from, to, nextId);
      MoveIgnoresId(Abs(), from, to, nextId);
      hide RenamePlan, Consistent, Valid, IdsBelowNext;
      Transfer(from, to);
      return Done;
    }

    /** What keeps an existing target from being replaced, by the parent column. */
    method CheckTarget(from: Path, to: Path) returns (r: Option<Error>)
      requires Valid() && Present(Abs(), from) && !Within(from, to)
      ensures r == Obstacle(Abs(), from, to)
    {
      var existing := Lookup([to]);
      assert to in existing <==> Present(Abs(), to);
      if to !in existing {
        return None;
      }
      var target, n := nodes[existing[to]], nodes[paths[from].node];
      if target.kind == Directory && n.kind != Directory {
        return Some(IsDir);
      }
      if target.kind != Directory && n.kind == Directory {
        return Some(NotDir);
      }
      if target.kind == Directory {
        TopLevelEntry(Abs(), from);
        hide Tree, Total;
        var populated := HasChildren(to);
        if populated {
          return Some(NotEmpty);
        }
      }
      return None;
    }

    method DeleteTarget(p: Path)
      requires Consistent(Abs()) && ParentsAgree(paths)
      modifies this`paths, this`nodes
      ensures Abs() == Gather(old(Abs()).paths - {p}, old(nodes)) && ParentsAgree(paths)
    {
      var existing := Lookup([p]);
      assert p in existing <==> Present(Abs(), p);
      if p in existing {
        DeletePath(p);
      } else {
        NothingToGather(Abs(), p);
      }
    }

    /** Rename after its checks: the target row goes away, the rows of the subtree are updated. */
    method Transfer(from: Path, to: Path)
      requires ParentsAgree(paths) && to != ROOT && !Within(from, to)
      requires Consistent(Abs()) && forall q | q in Abs().paths :: !(to < q)
      modifies this`paths, this`nodes
      ensures Abs() == Execute(old(Abs()), Move(from, to), 0)
      ensures ParentsAgree(paths) && nodes.Keys <= old(nodes.Keys)
      ensures old(Valid()) && Tree(Abs()) && Total(nodes) <= old(Total(nodes)) ==> Valid()
    {
      ghost var before := Abs();
      hide Tree, Total;
      MoveInSteps(before, from, to, 0);
      RelocatedWithoutTarget(before.paths, from, to);
      hide Relocated, Execute;
      DeleteTarget(to);
      assert forall q | q in paths :: q in NodeColumn(paths);
      MovePaths(from, to);
    }
  }
}
