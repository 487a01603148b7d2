/** ACL checks: the walk from a resource to the root, and the batched form over one preload. */
module Acl {
  import opened Common

  // ----- the resource tree -----

  function LastSlash(p: string): (i: int)
    ensures -1 <= i < |p|
    ensures i >= 0 ==> p[i] == '/'
    ensures p != "" && p[0] == '/' ==> i >= 0
  {
    if p == "" then -1 else if p[|p| - 1] == '/' then |p| - 1 else LastSlash(p[..|p| - 1])
  }

  lemma {:induction false} NoSlashAfter(p: string, k: nat)
    requires LastSlash(p) < k < |p|
    ensures p[k] != '/'
  {
    if k < |p| - 1 { NoSlashAfter(p[..|p| - 1], k); }
  }

  /** One round of the loop: rsplit("/", 1)[0], or the root where that is empty. */
  function Up(p: string): string
  {
    var i := LastSlash(p);
    var parent := if i < 0 then p else p[..i];
    if parent == "" then "/" else parent
  }

  /** `n` rounds of the loop. */
  function Climb(p: string, n: nat): string { if n == 0 then p else Up(Climb(p, n - 1)) }

  /** The paths the walk ends on: empty, or with a leading slash. */
  predicate Rooted(p: string) { p == "" || p[0] == '/' }

  function Rank(p: string): nat { if p == "/" then 0 else if p == "" then 1 else |p| + 1 }

  lemma UpDescends(p: string)
    requires Rooted(p) && p != "/"
    ensures Rooted(Up(p)) && Rank(Up(p)) < Rank(p)
  {
  }

  /** [resource_path, ..., "/"]. */
  function Ancestors(p: string): (paths: seq<string>)
    requires Rooted(p)
    ensures paths != [] && paths[0] == p && paths[|paths| - 1] == "/"
    decreases Rank(p)
  {
    if p == "/" then ["/"]
    else
      UpDescends(p);
      [p] + Ancestors(Up(p))
  }

  /** Position d of the walk is the path climbed d times, and only the last one is the root. */
  lemma AncestorsClimb(p: string, d: nat)
    requires Rooted(p) && d < |Ancestors(p)|
    ensures Ancestors(p)[d] == Climb(p, d)
    ensures d < |Ancestors(p)| - 1 ==> Ancestors(p)[d] != "/"
  {
    ClimbAt(p, d);
    if d < |Ancestors(p)| - 1 { RootIsLast(p, d); }
  }

  lemma {:induction false} ClimbAt(p: string, d: nat)
    requires Rooted(p) && d < |Ancestors(p)|
    ensures Ancestors(p)[d] == Climb(p, d)
    decreases d
  {
    if d > 0 {
      ClimbAt(p, d - 1);
      NextIsUp(p, d - 1);
    }
  }

  lemma {:induction false} NextIsUp(p: string, d: nat)
    requires Rooted(p) && d + 1 < |Ancestors(p)|
    ensures Ancestors(p)[d + 1] == Up(Ancestors(p)[d])
    decreases d
  {
    var parent := AncestorsTail(p);
    if d > 0 { NextIsUp(parent, d - 1); }
  }

  lemma {:induction false} RootIsLast(p: string, d: nat)
    requires Rooted(p) && d < |Ancestors(p)| - 1
    ensures Ancestors(p)[d] != "/"
    decreases d
  {
    var parent := AncestorsTail(p);
    if d > 0 { RootIsLast(parent, d - 1); }
  }

  /** Past the resource itself, the walk is its parent's. */
  lemma AncestorsTail(p: string) returns (parent: string)
    requires Rooted(p)
    ensures parent == Up(p) && (p == "/" ==> Ancestors(p) == [p])
    ensures p != "/" ==> Rooted(parent) && Ancestors(p) == [p] + Ancestors(parent)
  {
    parent := Up(p);
    if p != "/" { UpDescends(p); }
  }

  /** `q` is the part of `p` in front of one of its slashes, other than the first character. */
  ghost predicate CutAtSlash(p: string, q: string)
  {
    exists k :: 0 < k < |p| && p[k] == '/' && q == p[..k]
  }

  /** One round goes to the longest cut, or to the root where there is none. */
  lemma UpIsLongestCut(p: string)
    requires p != "" && p[0] == '/' && p != "/"
    ensures |Up(p)| < |p| && Up(p) != "" && Up(p)[0] == '/'
    ensures Up(p) == "/" || CutAtSlash(p, Up(p))
    ensures forall q :: CutAtSlash(p, q) <==> (CutAtSlash(p, Up(p)) && q == Up(p)) || (Up(p) != "/" && CutAtSlash(Up(p), q))
  {
    var i := LastSlash(p);
    forall k | i < k < |p| ensures p[k] != '/' { NoSlashAfter(p, k); }
    if i > 0 {
      var u := p[..i];
      assert CutAtSlash(p, u);
      forall q | CutAtSlash(p, q) ensures q == u || (u != "/" && CutAtSlash(u, q)) {
        var k :| 0 < k < |p| && p[k] == '/' && q == p[..k];
        if k < i { assert u[k] == '/' && q == u[..k]; }
      }
      forall q | CutAtSlash(u, q) ensures CutAtSlash(p, q) {
        var k :| 0 < k < |u| && u[k] == '/' && q == u[..k];
        assert p[k] == '/' && q == p[..k];
      }
    }
  }

  /** The walk visits the resource, every part of it in front of a slash, and the root, and nothing
      else; the longer ones first. */
  lemma {:induction false} AncestorsAreCuts(p: string, q: string)
    requires Rooted(p)
    ensures q in Ancestors(p) <==> q == p || q == "/" || CutAtSlash(p, q)
    ensures p != "" ==> forall i, j :: 0 <= i < j < |Ancestors(p)| ==> |Ancestors(p)[i]| > |Ancestors(p)[j]|
    decreases Rank(p)
  {
    var u := AncestorsTail(p);
    if p == "" {
      assert Ancestors("/") == ["/"];
    } else if p != "/" {
      UpDescends(p);
      AncestorsAreCuts(u, q);
      UpIsLongestCut(p);
    }
  }

  lemma {:induction false} NeverRoot(p: string, n: nat)
    requires !Rooted(p)
    ensures Climb(p, n) != "" && Climb(p, n)[0] == p[0]
  {
    if n > 0 { NeverRoot(p, n - 1); }
  }

  /** The walk reaches "/" exactly on paths that are empty or start with "/"; on any other it loops. */
  lemma WalkEndsIffRooted(p: string)
    ensures (exists n :: Climb(p, n) == "/") <==> Rooted(p)
  {
    if Rooted(p) {
      AncestorsClimb(p, |Ancestors(p)| - 1);
    } else {
      forall n: nat ensures Climb(p, n) != "/" { NeverRoot(p, n); }
    }
  }

  /** acl.resource_ancestors. */
  method ResourceAncestors(p: string) returns (paths: seq<string>)
    requires Rooted(p)
    ensures paths == Ancestors(p)
  {
    paths := [];
    var path := p;
    while true
      invariant Rooted(path) && paths + Ancestors(path) == Ancestors(p)
      decreases Rank(path)
    {
      AncestorsStep(paths, path);
      paths := paths + [path];
      if path == "/" {
        break;
      }
      path := Up(path);
    }
  }

  lemma AncestorsStep(before: seq<string>, path: string)
    requires Rooted(path)
    ensures path == "/" ==> before + Ancestors(path) == before + [path]
    ensures path != "/" ==> Rooted(Up(path)) && Rank(Up(path)) < Rank(path)
    ensures path != "/" ==> before + Ancestors(path) == (before + [path]) + Ancestors(Up(path))
  {
    if path != "/" {
      UpDescends(path);
      Associate(before, [path], Ancestors(Up(path)));
    }
  }

  // ----- entries -----

  datatype Principal = System(code: int) | User(id: string) | Group(id: string) | Other

  datatype Ace = Ace(resource: string, position: int, allow: bool, principal: Principal, permission: string)

  datatype Caller = Caller(userId: string, groups: set<string>, authenticated: bool)

  const EVERYONE := 0
  const AUTHENTICATED := 1

  predicate Matches(a: Ace, c: Caller)
  {
    match a.principal
    case System(code) => code == EVERYONE || (code == AUTHENTICATED && c.authenticated)
    case User(id) => id == c.userId
    case Group(id) => id in c.groups
    case Other => false
  }

  /** The principals a caller acts as. */
  ghost function PrincipalsOf(c: Caller): set<Principal>
  {
    {System(0), User(c.userId)} + (if c.authenticated then {System(1)} else {}) + (set g | g in c.groups :: Group(g))
  }

  predicate Applies(a: Ace, c: Caller, permission: string)
  {
    Matches(a, c) && (a.permission == "*" || a.permission == permission)
  }

  type Entries = map<string, seq<Ace>>

  function EntriesAt(entries: Entries, path: string): seq<Ace> { if path in entries then entries[path] else [] }

  /** The first applicable entry of a list decides. */
  function Scan(aces: seq<Ace>, c: Caller, permission: string): Option<bool>
  {
    if aces == [] then None
    else if Applies(aces[0], c, permission) then Some(aces[0].allow)
    else Scan(aces[1..], c, permission)
  }

  function Walk(paths: seq<string>, c: Caller, permission: string, entries: Entries): Option<bool>
  {
    if paths == [] then None
    else
      var here := Scan(EntriesAt(entries, paths[0]), c, permission);
      if here.Some? then here else Walk(paths[1..], c, permission, entries)
  }

  function CheckInMemory(p: string, c: Caller, permission: string, entries: Entries): bool
    requires Rooted(p)
  {
    Walk(Ancestors(p), c, permission, entries) == Some(true)
  }

  /** acl.check_permission_inmemory. */
  method CheckPermissionInMemory(p: string, c: Caller, permission: string, entries: Entries) returns (granted: bool)
    requires Rooted(p)
    ensures granted == CheckInMemory(p, c, permission, entries)
  {
    var paths := ResourceAncestors(p);
    granted := WalkPaths(paths, c, permission, entries);
  }

  /** The outer loop of acl.check_permission_inmemory. */
  method WalkPaths(paths: seq<string>, c: Caller, permission: string, entries: Entries) returns (granted: bool)
    ensures granted == (Walk(paths, c, permission, entries) == Some(true))
  {
    for i := 0 to |paths|
      invariant Walk(paths, c, permission, entries) == Walk(paths[i..], c, permission, entries)
    {
      assert paths[i..][1..] == paths[i + 1..];
      var decision := FirstDecision(EntriesAt(entries, paths[i]), c, permission);
      if decision.Some? {
        return decision.value;
      }
    }
    return false;
  }

  /** The inner loop of acl.check_permission_inmemory. */
  method FirstDecision(aces: seq<Ace>, c: Caller, permission: string) returns (decision: Option<bool>)
    ensures decision == Scan(aces, c, permission)
  {
    for k := 0 to |aces|
      invariant Scan(aces, c, permission) == Scan(aces[k..], c, permission)
    {
      assert aces[k..][1..] == aces[k + 1..];
      if Applies(aces[k], c, permission) {
        return Some(aces[k].allow);
      }
    }
    return None;
  }

  // ----- the database -----

  /** UNIQUE(resource, position). */
  ghost predicate UniquePositions(table: seq<Ace>)
  {
    forall a, b :: a in table && b in table && a.resource == b.resource && a.position == b.position ==> a == b
  }

  ghost predicate Sorted(rows: seq<Ace>) { forall i, j :: 0 <= i < j < |rows| ==> rows[i].position <= rows[j].position }

  function Insert(row: Ace, rows: seq<Ace>): seq<Ace>
  {
    if rows == [] || row.position <= rows[0].position then [row] + rows else [rows[0]] + Insert(row, rows[1..])
  }

  /** SELECT ... WHERE resource IN (...) ORDER BY position. */
  function Select(table: seq<Ace>, resources: seq<string>): seq<Ace>
  {
    if table == [] then []
    else
      var rest := Select(table[1..], resources);
      if table[0].resource in resources then Insert(table[0], rest) else rest
  }

  lemma {:induction false} InsertKeeps(row: Ace, rows: seq<Ace>)
    requires Sorted(rows)
    ensures Sorted(Insert(row, rows))
    ensures forall a :: a in Insert(row, rows) <==> a == row || a in rows
    decreases |rows|
  {
    if rows != [] && row.position > rows[0].position {
      InsertKeeps(row, rows[1..]);
      var tail := Insert(row, rows[1..]);
      assert forall i :: 0 <= i < |tail| ==> tail[i] in tail;
      assert forall a :: a in rows <==> a == rows[0] || a in rows[1..];
    }
  }

  lemma {:induction false} SelectIsQuery(table: seq<Ace>, resources: seq<string>)
    ensures Sorted(Select(table, resources))
    ensures forall a :: a in Select(table, resources) <==> a in table && a.resource in resources
    decreases |table|
  {
    if table != [] {
      SelectIsQuery(table[1..], resources);
      InsertKeeps(table[0], Select(table[1..], resources));
    }
  }

  /** What the map must hold for the walk over `paths`: each path's entries, all of them, by position. */
  ghost predicate Loaded(entries: Entries, table: seq<Ace>, paths: seq<string>)
  {
    forall p {:trigger EntriesAt(entries, p)} :: p in paths ==>
      Sorted(EntriesAt(entries, p)) && forall a :: a in EntriesAt(entries, p) <==> a in table && a.resource == p
  }

  /** Rows of one resource, in the order given. */
  function Of(rows: seq<Ace>, resource: string): seq<Ace>
  {
    if rows == [] then []
    else
      var last := rows[|rows| - 1];
      Of(rows[..|rows| - 1], resource) + if last.resource == resource then [last] else []
  }

  lemma {:induction false} OfKeeps(rows: seq<Ace>, resource: string)
    requires Sorted(rows)
    ensures Sorted(Of(rows, resource))
    ensures forall a :: a in Of(rows, resource) <==> a in rows && a.resource == resource
    decreases |rows|
  {
    if rows != [] {
      var init := rows[..|rows| - 1];
      OfKeeps(init, resource);
      assert rows == init + [rows[|rows| - 1]];
      var mine := Of(init, resource);
      assert forall i :: 0 <= i < |mine| ==> mine[i] in mine;
    }
  }

  /** model.acl.get_acl_entries_map: one query, rows handed out to their resources. */
  method GetAclEntriesMap(table: seq<Ace>, resources: seq<string>) returns (entries: Entries)
    ensures Loaded(entries, table, resources)
  {
    entries := map r | r in resources :: [];
    var rows := Select(table, resources);
    SelectIsQuery(table, resources);
    for i := 0 to |rows|
      invariant entries.Keys == set r | r in resources
      invariant forall r :: r in entries ==> entries[r] == Of(rows[..i], r)
    {
      var row := rows[i];
      assert rows[..i + 1][..i] == rows[..i];
      assert row in rows;
      entries := entries[row.resource := entries[row.resource] + [row]];
    }
    assert rows[..|rows|] == rows;
    forall p | p in resources
      ensures Sorted(EntriesAt(entries, p)) && forall a :: a in EntriesAt(entries, p) <==> a in table && a.resource == p
    {
      OfKeeps(rows, p);
    }
  }

  // ----- who decides -----

  /** Entry `a`, `d` steps up from the resource, is for one of the caller's principals and for this
      permission or all. */
  ghost predicate Candidate(table: seq<Ace>, p: string, c: Caller, permission: string, d: nat, a: Ace)
    requires Rooted(p)
  {
    && a in table && d < |Ancestors(p)| && a.resource == Ancestors(p)[d]
    && a.principal in PrincipalsOf(c) && a.permission in {"*", permission}
  }

  lemma AppliesIff(a: Ace, c: Caller, permission: string)
    ensures Applies(a, c, permission) <==> a.principal in PrincipalsOf(c) && a.permission in {"*", permission}
  {
    assert a.principal.Group? ==> (a.principal in PrincipalsOf(c) <==> a.principal.id in c.groups);
  }

  /** `a` is the candidate least in (distance to the resource, position). */
  ghost predicate Decides(table: seq<Ace>, p: string, c: Caller, permission: string, d: nat, a: Ace)
    requires Rooted(p)
  {
    && Candidate(table, p, c, permission, d, a)
    && forall e, b :: Candidate(table, p, c, permission, e, b) ==> d < e || (d == e && a.position <= b.position)
  }

  lemma {:induction false} ScanDecides(aces: seq<Ace>, c: Caller, permission: string) returns (k: nat)
    ensures Scan(aces, c, permission).None? ==> forall a :: a in aces ==> !Applies(a, c, permission)
    ensures Scan(aces, c, permission).Some? ==>
      k < |aces| && Applies(aces[k], c, permission) && Scan(aces, c, permission).value == aces[k].allow
    ensures Scan(aces, c, permission).Some? ==> forall i :: 0 <= i < k ==> !Applies(aces[i], c, permission)
    decreases |aces|
  {
    k := 0;
    if aces != [] && !Applies(aces[0], c, permission) {
      k := ScanDecides(aces[1..], c, permission);
      k := k + 1;
    }
  }

  lemma {:induction false} WalkDecides(paths: seq<string>, c: Caller, permission: string, entries: Entries) returns (d: nat)
    ensures var w := Walk(paths, c, permission, entries);
      && (w.None? ==> forall i :: 0 <= i < |paths| ==> Scan(EntriesAt(entries, paths[i]), c, permission).None?)
      && (w.Some? ==> d < |paths| && w == Scan(EntriesAt(entries, paths[d]), c, permission))
      && (w.Some? ==> forall i :: 0 <= i < d ==> Scan(EntriesAt(entries, paths[i]), c, permission).None?)
    decreases |paths|
  {
    d := 0;
    if paths != [] && Scan(EntriesAt(entries, paths[0]), c, permission).None? {
      d := WalkDecides(paths[1..], c, permission, entries);
      d := d + 1;
    }
  }

  lemma NoCandidateAt(p: string, c: Caller, permission: string, entries: Entries, table: seq<Ace>, i: nat, a: Ace)
    requires Rooted(p) && Loaded(entries, table, Ancestors(p)) && i < |Ancestors(p)|
    requires Scan(EntriesAt(entries, Ancestors(p)[i]), c, permission).None?
    ensures !Candidate(table, p, c, permission, i, a)
  {
    var aces := EntriesAt(entries, Ancestors(p)[i]);
    var _ := ScanDecides(aces, c, permission);
    AppliesIff(a, c, permission);
    assert Candidate(table, p, c, permission, i, a) ==> a in aces;
  }

  /** The walk over a full preload ends on the deciding entry, or there is no candidate at all. */
  lemma WalkFindsDecider(p: string, c: Caller, permission: string, entries: Entries, table: seq<Ace>)
    returns (d: nat, a: Ace)
    requires Rooted(p) && Loaded(entries, table, Ancestors(p))
    ensures var w := Walk(Ancestors(p), c, permission, entries);
      && (w.None? ==> forall e: nat, b :: !Candidate(table, p, c, permission, e, b))
      && (w.Some? ==> Decides(table, p, c, permission, d, a) && w.value == a.allow)
  {
    var paths := Ancestors(p);
    a := Ace("", 0, false, Other, "");
    d := WalkDecides(paths, c, permission, entries);
    if Walk(paths, c, permission, entries).None? {
      forall e: nat, b ensures !Candidate(table, p, c, permission, e, b) {
        if e < |paths| { NoCandidateAt(p, c, permission, entries, table, e, b); }
      }
    } else {
      var aces := EntriesAt(entries, paths[d]);
      var k := ScanDecides(aces, c, permission);
      a := aces[k];
      assert paths[d] in paths && a in aces;
      AppliesIff(a, c, permission);
      forall e: nat, b | Candidate(table, p, c, permission, e, b)
        ensures d < e || (d == e && aces[k].position <= b.position)
      {
        if e < d {
          NoCandidateAt(p, c, permission, entries, table, e, b);
        } else if e == d {
          assert b in aces;
          AppliesIff(b, c, permission);
          var i :| 0 <= i < |aces| && aces[i] == b;
        }
      }
    }
  }

  lemma DeciderIsUnique(table: seq<Ace>, p: string, c: Caller, permission: string, d: nat, a: Ace, e: nat, b: Ace)
    requires Rooted(p) && UniquePositions(table)
    requires Decides(table, p, c, permission, d, a) && Decides(table, p, c, permission, e, b)
    ensures d == e && a == b
  {
  }

  ghost predicate Granted(table: seq<Ace>, p: string, c: Caller, permission: string)
    requires Rooted(p)
  {
    exists d: nat, a :: Decides(table, p, c, permission, d, a) && a.allow
  }

  /** With every ancestor loaded, the check grants exactly when the entry least in (distance,
      position) among the applicable ones allows; with no applicable entry it denies. */
  lemma CheckFollowsDecider(p: string, c: Caller, permission: string, entries: Entries, table: seq<Ace>)
    requires Rooted(p) && UniquePositions(table) && Loaded(entries, table, Ancestors(p))
    ensures CheckInMemory(p, c, permission, entries) <==> Granted(table, p, c, permission)
  {
    var d, a := WalkFindsDecider(p, c, permission, entries, table);
    if Granted(table, p, c, permission) {
      var e: nat, b :| Decides(table, p, c, permission, e, b) && b.allow;
      assert Candidate(table, p, c, permission, e, b);
      DeciderIsUnique(table, p, c, permission, d, a, e, b);
    }
  }

  /** ACL.check_permission. */
  method CheckPermission(table: seq<Ace>, p: string, c: Caller, permission: string) returns (granted: bool)
    requires Rooted(p) && UniquePositions(table)
    ensures granted <==> Granted(table, p, c, permission)
  {
    var paths := ResourceAncestors(p);
    var entries := GetAclEntriesMap(table, paths);
    CheckFollowsDecider(p, c, permission, entries, table);
    granted := CheckPermissionInMemory(p, c, permission, entries);
  }

  /** A map loaded for more paths is loaded for fewer. */
  lemma LoadedForFewer(entries: Entries, table: seq<Ace>, more: seq<string>, fewer: seq<string>)
    requires Loaded(entries, table, more) && forall q :: q in fewer ==> q in more
    ensures Loaded(entries, table, fewer)
  {
  }

  /** The granted ones among `permissions`, in order. */
  ghost function GrantedAmong(table: seq<Ace>, p: string, c: Caller, permissions: seq<string>): seq<string>
    requires Rooted(p)
  {
    if permissions == [] then []
    else
      var n := |permissions| - 1;
      GrantedAmong(table, p, c, permissions[..n]) + if Granted(table, p, c, permissions[n]) then [permissions[n]] else []
  }

  /** acl._granted_permissions over a preload that covers the resource's ancestors. */
  method GrantedPermissions(p: string, c: Caller, permissions: seq<string>, entries: Entries, ghost table: seq<Ace>)
    returns (perms: seq<string>)
    requires Rooted(p) && UniquePositions(table) && Loaded(entries, table, Ancestors(p))
    ensures perms == GrantedAmong(table, p, c, permissions)
  {
    perms := [];
    for i := 0 to |permissions|
      invariant perms == GrantedAmong(table, p, c, permissions[..i])
    {
      CheckFollowsDecider(p, c, permissions[i], entries, table);
      assert permissions[..i + 1][..i] == permissions[..i];
      var granted := CheckPermissionInMemory(p, c, permissions[i], entries);
      if granted {
        perms := perms + [permissions[i]];
      }
    }
    assert permissions[..|permissions|] == permissions;
  }

  /** Each of `resources` has exactly its granted permissions in `result`, and no entry if it has none. */
  ghost predicate Answers(table: seq<Ace>, resources: seq<string>, c: Caller, permissions: seq<string>,
                          result: map<string, seq<string>>)
    requires forall r :: r in resources ==> Rooted(r)
  {
    && (forall r :: r in result ==> r in resources)
    && (forall r :: r in resources ==> AnswersFor(table, r, c, permissions, result))
  }

  ghost predicate AnswersFor(table: seq<Ace>, r: string, c: Caller, permissions: seq<string>, result: map<string, seq<string>>)
    requires Rooted(r)
  {
    var perms := GrantedAmong(table, r, c, permissions);
    if perms == [] then r !in result else r in result && result[r] == perms
  }

  lemma AnswersOneMore(table: seq<Ace>, done: seq<string>, c: Caller, permissions: seq<string>,
                       result: map<string, seq<string>>, res: string, perms: seq<string>)
    requires (forall r :: r in done ==> Rooted(r)) && Rooted(res) && Answers(table, done, c, permissions, result)
    requires perms == GrantedAmong(table, res, c, permissions)
    ensures Answers(table, done + [res], c, permissions, if perms == [] then result else result[res := perms])
  {
    var after := if perms == [] then result else result[res := perms];
    assert perms == [] && res in result ==> AnswersFor(table, res, c, permissions, result);
    forall r | r in done + [res] ensures AnswersFor(table, r, c, permissions, after) {
      if r != res { assert AnswersFor(table, r, c, permissions, result); }
    }
  }

  /** The union of all ancestors, which is loaded at once. */
  method UnionOfAncestors(resources: seq<string>) returns (all: seq<string>)
    requires forall r :: r in resources ==> Rooted(r)
    ensures forall r, q :: r in resources && q in Ancestors(r) ==> q in all
  {
    all := [];
    for i := 0 to |resources|
      invariant forall k, q :: 0 <= k < i && q in Ancestors(resources[k]) ==> q in all
    {
      var paths := ResourceAncestors(resources[i]);
      all := all + paths;
    }
  }

  /** ACL.permissions_for_resources: over one preload of all ancestors, each resource gets exactly the
      permissions that a check of its own would grant, and resources with none are left out. */
  method PermissionsForResources(table: seq<Ace>, resources: seq<string>, c: Caller, permissions: seq<string>)
    returns (result: map<string, seq<string>>)
    requires UniquePositions(table) && forall r :: r in resources ==> Rooted(r)
    ensures Answers(table, resources, c, permissions, result)
  {
    var all := UnionOfAncestors(resources);
    var entries := GetAclEntriesMap(table, all);
    result := map[];
    for i := 0 to |resources|
      invariant Answers(table, resources[..i], c, permissions, result)
    {
      var res := resources[i];
      LoadedForFewer(entries, table, all, Ancestors(res));
      var perms := GrantedPermissions(res, c, permissions, entries, table);
      assert resources[..i + 1] == resources[..i] + [res];
      AnswersOneMore(table, resources[..i], c, permissions, result, res, perms);
      if perms != [] {
        result := result[res := perms];
      }
    }
    assert resources[..|resources|] == resources;
  }

  /** The granted permissions keep the order they were asked for in. */
  lemma {:induction false} GrantedAmongInOrder(table: seq<Ace>, p: string, c: Caller, permissions: seq<string>, i: nat, j: nat)
    returns (i': nat, j': nat)
    requires Rooted(p) && i < j < |GrantedAmong(table, p, c, permissions)|
    ensures i' < j' < |permissions|
    ensures permissions[i'] == GrantedAmong(table, p, c, permissions)[i] && permissions[j'] == GrantedAmong(table, p, c, permissions)[j]
    decreases |permissions|
  {
    var n := |permissions| - 1;
    var init := GrantedAmong(table, p, c, permissions[..n]);
    if j < |init| {
      i', j' := GrantedAmongInOrder(table, p, c, permissions[..n], i, j);
    } else {
      GrantedAmongMembers(table, p, c, permissions[..n], init[i]);
      i' :| 0 <= i' < n && permissions[..n][i'] == init[i];
      j' := n;
    }
  }

  /** A permission is in a resource's answer exactly when it was asked for and is granted. */
  lemma {:induction false} GrantedAmongMembers(table: seq<Ace>, p: string, c: Caller, permissions: seq<string>, permission: string)
    requires Rooted(p)
    ensures permission in GrantedAmong(table, p, c, permissions)
       <==> permission in permissions && Granted(table, p, c, permission)
    decreases |permissions|
  {
    if permissions != [] {
      var n := |permissions| - 1;
      GrantedAmongMembers(table, p, c, permissions[..n], permission);
      assert permissions == permissions[..n] + [permissions[n]];
    }
  }
}
