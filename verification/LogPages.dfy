/** Walking the pages of a log collection (collector/src/redfish/log_baseline.py,
    _collect_members).

    A URI missing from the server is a request that failed or came back empty. */
module LogPages {
  import opened Common
  import opened LogIngest

  const MAX_PAGES: nat := 20

  datatype Page = Page(members: seq<Member>, next: string)   // "" when there is no next link

  type Server = map<string, Page>

  // m itself, or a row with the same id, was collected.
  ghost predicate Represented(members: seq<Member>, m: Member) {
    exists x :: x in members && (x == m || (m.id.Some? && x.id == m.id))
  }

  ghost predicate PageCovered(members: seq<Member>, p: Page) {
    forall m | m in p.members :: Represented(members, m)
  }

  ghost predicate DistinctIds(members: seq<Member>) {
    forall i, j | 0 <= i < j < |members| && members[i].id.Some? :: members[i].id != members[j].id
  }

  // ---- One page ----

  // Keep rows whose id is new.
  method AddPage(members: seq<Member>, page: seq<Member>) returns (all: seq<Member>)
    requires DistinctIds(members)
    ensures members <= all && DistinctIds(all) && |all| <= |members| + |page|
    ensures forall m | m in page :: Represented(all, m)
    ensures forall m | m in all :: m in members || m in page
  {
    all := members;
    var seen := set x | x in members && x.id.Some? :: x.id.value;
    var i := 0;
    while i < |page|
      invariant 0 <= i <= |page|
      invariant members <= all && DistinctIds(all) && |all| <= |members| + i
      invariant forall x :: x in seen <==> exists m :: m in all && m.id == Some(x)
      invariant forall k | 0 <= k < i :: Represented(all, page[k])
      invariant forall m | m in all :: m in members || m in page
    {
      var m := page[i];
      ghost var before := all;
      if m.id.None? || m.id.value !in seen {
        all := all + [m];
        if m.id.Some? { seen := seen + {m.id.value}; }
        assert m in all && forall x | x in before :: x in all;
        assert forall x | x in all :: x in before || x == m;
        RepresentedGrows(before, all, page, i);
        assert Represented(all, page[i]);
      } else {
        var x :| x in all && x.id == Some(m.id.value);
        assert Represented(all, page[i]);
      }
      i := i + 1;
    }
  }

  lemma RepresentedGrows(before: seq<Member>, all: seq<Member>, page: seq<Member>, i: nat)
    requires i <= |page| && forall x | x in before :: x in all
    requires forall k | 0 <= k < i :: Represented(before, page[k])
    ensures forall k | 0 <= k < i :: Represented(all, page[k])
  {
    forall k | 0 <= k < i
      ensures Represented(all, page[k])
    {
      var x :| x in before && (x == page[k] || (page[k].id.Some? && x.id == page[k].id));
      assert x in all;
    }
  }

  // ---- What a walk is ----

  // Pages that answered, from the start, each linked by the one before, none twice.
  ghost predicate Chain(server: Server, start: string, path: seq<string>) {
    && Distinct(path)
    && (forall i | 0 <= i < |path| :: path[i] in server && path[i] != "")
    && (path != [] ==> path[0] == start)
    && (forall i | 0 < i < |path| :: path[i] == server[path[i - 1]].next)
  }

  // Where the walk would go next.
  ghost function Tail(server: Server, start: string, path: seq<string>): string
    requires Chain(server, start, path)
  {
    if path == [] then start else server[path[|path| - 1]].next
  }

  ghost predicate PathCovered(server: Server, path: seq<string>, members: seq<Member>) {
    forall u | u in path && u in server :: PageCovered(members, server[u])
  }

  ghost predicate OnPath(server: Server, path: seq<string>, m: Member) {
    exists u :: u in path && u in server && m in server[u].members
  }

  // Nothing is made up.
  ghost predicate FromPath(server: Server, path: seq<string>, members: seq<Member>) {
    forall m | m in members :: OnPath(server, path, m)
  }

  predicate BudgetReached(path: seq<string>, members: seq<Member>, maxEntries: nat) {
    path != [] && (|members| >= maxEntries * 3 || |path| >= MAX_PAGES)
  }

  // The budget was not yet reached before the last page.
  ghost predicate OnePageOver(server: Server, path: seq<string>, members: seq<Member>, maxEntries: nat) {
    |path| > 1 && path[|path| - 1] in server ==> |members| - |server[path[|path| - 1]].members| < maxEntries * 3
  }

  // The outcome of a walk over the pages of path. It is truncated exactly when the budget
  // was reached and a next link was left; else it ended without a link, at a page already
  // seen, or at a request that failed.
  ghost predicate Walk(server: Server, start: string, maxEntries: nat, path: seq<string>, members: seq<Member>,
                       truncated: bool)
  {
    && Chain(server, start, path) && |path| <= MAX_PAGES
    && DistinctIds(members) && PathCovered(server, path, members) && FromPath(server, path, members)
    && OnePageOver(server, path, members, maxEntries)
    && var tail := Tail(server, start, path);
       && (truncated <==> BudgetReached(path, members, maxEntries) && tail != "")
       && (!truncated ==> tail == "" || tail in path || tail !in server)
  }

  // When truncated is set, in numbers: at least three times the cap was collected or twenty
  // pages were read, and there is a next link.
  lemma TruncatedIff(server: Server, start: string, maxEntries: nat, path: seq<string>, members: seq<Member>,
                     truncated: bool)
    requires Walk(server, start, maxEntries, path, members, truncated)
    ensures |path| <= 20
    ensures truncated <==> && path != [] && server[path[|path| - 1]].next != ""
                           && (|members| >= 3 * maxEntries || |path| >= 20)
  {
  }

  lemma ChainGrows(server: Server, start: string, path: seq<string>)
    requires Chain(server, start, path)
    requires var u := Tail(server, start, path); u != "" && u !in path && u in server
    ensures var u := Tail(server, start, path);
            Chain(server, start, path + [u]) && Tail(server, start, path + [u]) == server[u].next
  {
    var more := path + [Tail(server, start, path)];
    assert forall i | 0 <= i < |path| :: more[i] == path[i];
  }

  lemma CoverGrows(server: Server, path: seq<string>, before: seq<Member>, all: seq<Member>, u: string)
    requires PathCovered(server, path, before) && before <= all && u in server && PageCovered(all, server[u])
    ensures PathCovered(server, path + [u], all)
  {
    assert forall x | x in before :: x in all;
    forall v | v in path + [u] && v in server && v != u
      ensures PageCovered(all, server[v])
    {
      assert v in path;
      assert PageCovered(before, server[v]);
      forall m | m in server[v].members
        ensures Represented(all, m)
      {
        assert Represented(before, m);
        var x :| x in before && (x == m || (m.id.Some? && x.id == m.id));
        assert x in all;
      }
    }
  }

  lemma FromGrows(server: Server, path: seq<string>, before: seq<Member>, all: seq<Member>, u: string)
    requires FromPath(server, path, before) && u in server
    requires forall m | m in all :: m in before || m in server[u].members
    ensures FromPath(server, path + [u], all)
  {
    forall m | m in all
      ensures OnPath(server, path + [u], m)
    {
      if m in before {
        assert OnPath(server, path, m);
        var v :| v in path && v in server && m in server[v].members;
        assert v in path + [u];
      } else {
        assert u in path + [u];
      }
    }
  }

  method CollectMembers(server: Server, start: string, maxEntries: nat)
    returns (members: seq<Member>, truncated: bool)
    ensures exists path :: Walk(server, start, maxEntries, path, members, truncated)
  {
    members, truncated := [], false;
    ghost var path: seq<string> := [];
    var visited: set<string> := {};
    var uri := start;
    var pages := 0;
    while uri != "" && uri !in visited
      invariant pages == |path| <= MAX_PAGES
      invariant visited == Elements(path)
      invariant Chain(server, start, path) && uri == Tail(server, start, path)
      invariant DistinctIds(members) && PathCovered(server, path, members) && FromPath(server, path, members)
      invariant OnePageOver(server, path, members, maxEntries)
      invariant path != [] ==> |members| < maxEntries * 3 && pages < MAX_PAGES
      decreases MAX_PAGES - pages
    {
      if uri !in server {
        assert Walk(server, start, maxEntries, path, members, truncated);
        return;
      }
      ghost var before := members;
      assert uri !in path;
      members := AddPage(members, server[uri].members);
      CoverGrows(server, path, before, members, uri);
      FromGrows(server, path, before, members, uri);
      ChainGrows(server, start, path);
      ElementsConcat(path, [uri]);
      path := path + [uri];
      visited := visited + {uri};
      pages := pages + 1;
      uri := server[uri].next;
      if |members| >= maxEntries * 3 || pages >= MAX_PAGES {
        truncated := uri != "";
        assert Walk(server, start, maxEntries, path, members, truncated);
        return;
      }
    }
    assert Walk(server, start, maxEntries, path, members, truncated);
  }

  // ---- What a walk misses ----

  ghost predicate LinksTo(server: Server, u: string, v: string) {
    u in server && server[u].next == v
  }

  // A way from p[0] along the next links of answered pages.
  ghost predicate Links(server: Server, p: seq<string>) {
    && p != []
    && (forall i | 0 <= i < |p| :: p[i] != "")
    && (forall i | 0 < i < |p| :: LinksTo(server, p[i - 1], p[i]))
  }

  ghost predicate Reachable(server: Server, start: string, u: string) {
    exists p :: Links(server, p) && p[0] == start && p[|p| - 1] == u
  }

  lemma LinksTail(server: Server, p: seq<string>)
    requires Links(server, p) && |p| > 1
    ensures Links(server, p[1..])
  {
    var q := p[1..];
    forall i | 0 < i < |q|
      ensures LinksTo(server, q[i - 1], q[i])
    {
      assert q[i - 1] == p[i] && q[i] == p[i + 1];
      var j := i + 1;
      assert LinksTo(server, p[j - 1], p[j]);
    }
  }

  lemma {:induction false} LinksStay(server: Server, start: string, path: seq<string>, p: seq<string>)
    requires Chain(server, start, path) && Links(server, p) && p[0] in path
    requires Tail(server, start, path) == "" || Tail(server, start, path) in path
    ensures p[|p| - 1] in path
    decreases |p|
  {
    if |p| > 1 {
      var i :| 0 <= i < |path| && path[i] == p[0];
      assert LinksTo(server, p[0], p[1]);
      if i + 1 < |path| { assert path[i + 1] == p[1]; }
      LinksTail(server, p);
      LinksStay(server, start, path, p[1..]);
    }
  }

  // Some page that the links lead to was not collected.
  ghost predicate Incomplete(server: Server, start: string, path: seq<string>) {
    exists u :: Reachable(server, start, u) && u !in path
  }

  lemma TailReachable(server: Server, start: string, path: seq<string>)
    requires Chain(server, start, path) && Tail(server, start, path) != ""
    ensures Reachable(server, start, Tail(server, start, path))
  {
    var p := path + [Tail(server, start, path)];
    assert forall i | 0 <= i < |path| :: p[i] == path[i];
    assert Links(server, p);
  }

  // For every server: a walk that is not reported as truncated is incomplete if and only if
  // it stopped at a request that failed.
  lemma IncompleteIffRequestFailed(server: Server, start: string, maxEntries: nat, path: seq<string>,
                                   members: seq<Member>)
    requires Walk(server, start, maxEntries, path, members, false)
    ensures Incomplete(server, start, path)
            <==> Tail(server, start, path) != "" && Tail(server, start, path) !in server
  {
    var tail := Tail(server, start, path);
    if tail != "" && tail !in server {
      TailReachable(server, start, path);
      assert tail !in path;
    } else {
      forall u | Reachable(server, start, u)
        ensures u in path
      {
        var p :| Links(server, p) && p[0] == start && p[|p| - 1] == u;
        if path != [] {
          assert path[0] == start;
          LinksStay(server, start, path, p);
        }
      }
    }
  }

  const FIRST := "/Entries"
  const SECOND := "/Entries?page=2"

  // Two pages, the second of which does not answer.
  function HalfAServer(m: Member): Server {
    map[FIRST := Page([m], SECOND)]
  }

  // The walk over them reports nothing and misses the second page, for every positive cap.
  lemma FailedPageNotReported(m: Member, maxEntries: nat, path: seq<string>, members: seq<Member>, truncated: bool)
    requires m.id.Some? && maxEntries > 0 && Walk(HalfAServer(m), FIRST, maxEntries, path, members, truncated)
    ensures !truncated && path == [FIRST] && Incomplete(HalfAServer(m), FIRST, path)
  {
    var server := HalfAServer(m);
    assert |FIRST| < |SECOND|;
    assert FIRST in server && SECOND !in server;
    assert forall i | 0 <= i < |path| :: path[i] == FIRST;
    OneRow(server, path, members, m);
    IncompleteIffRequestFailed(server, FIRST, maxEntries, path, members);
  }

  lemma OneRow(server: Server, path: seq<string>, members: seq<Member>, m: Member)
    requires FromPath(server, path, members) && forall u | u in path && u in server :: server[u].members == [m]
    requires DistinctIds(members) && m.id.Some?
    ensures |members| <= 1
  {
    forall i | 0 <= i < |members|
      ensures members[i] == m
    {
      assert OnPath(server, path, members[i]);
    }
    assert |members| > 1 ==> members[0].id != members[1].id;
  }

  // ---- The walk and the log ----

  // A row of some page that the links lead to.
  ghost predicate OnServer(server: Server, start: string, m: Member) {
    exists u :: Reachable(server, start, u) && u in server && m in server[u].members
  }

  lemma {:induction false} ChainReachable(server: Server, start: string, path: seq<string>, i: nat)
    requires Chain(server, start, path) && i < |path|
    ensures Reachable(server, start, path[i])
  {
    var p := path[..i + 1];
    assert Links(server, p) && p[0] == start && p[|p| - 1] == path[i];
  }

  // The log has the rows the server shows.
  ghost predicate Shows(server: Server, start: string, log: seq<Member>) {
    forall m :: m in log <==> OnServer(server, start, m)
  }

  // If every request answers and rows with one id are one row, an untruncated walk lists
  // exactly the rows of the log: the listing that a complete pull is given.
  lemma WalkListsLog(server: Server, start: string, maxEntries: nat, path: seq<string>, members: seq<Member>,
                     log: seq<Member>)
    requires Walk(server, start, maxEntries, path, members, false)
    requires forall u | Reachable(server, start, u) :: u in server
    requires forall m, n | OnServer(server, start, m) && OnServer(server, start, n) && m.id.Some? && m.id == n.id ::
               m == n
    requires Shows(server, start, log)
    ensures Elements(members) == Elements(log)
  {
    forall m | m in members
      ensures OnServer(server, start, m)
    {
      assert OnPath(server, path, m);
      var u :| u in path && u in server && m in server[u].members;
      var i :| 0 <= i < |path| && path[i] == u;
      ChainReachable(server, start, path, i);
    }
    IncompleteIffRequestFailed(server, start, maxEntries, path, members);
    if Tail(server, start, path) != "" { TailReachable(server, start, path); }
    forall m | OnServer(server, start, m)
      ensures m in members
    {
      var u :| Reachable(server, start, u) && u in server && m in server[u].members;
      assert u in path;
      assert PageCovered(members, server[u]) && Represented(members, m);
      var x :| x in members && (x == m || (m.id.Some? && x.id == m.id));
      assert OnServer(server, start, x);
    }
  }
}
