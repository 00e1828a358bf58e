/** Deploying the services of a compose file and undoing a deploy that fails: the create
    loop of internal/docker/deploy_stream.go and createAndStartService of
    internal/docker/compose.go.

    The Docker daemon is an object whose every answer may be a failure. Nobody else talks
    to it during a deploy. */
module DeployCompose {
  import opened Collections
  import opened StartOrder

  /** Ids are never used twice; creating is refused for a name that is held. */
  datatype Container = Container(name: string, running: bool)

  /** saysInUse: the message of a refusal contains "is already in use". */
  datatype CreateResult = Created(id: nat) | Refused(saysInUse: bool)

  datatype Inspection = NotInspected | Inspected(id: nat, running: bool)

  /** The daemon's side of the conversation: what was asked of it, and its answer. */
  datatype Answer =
    | Create(name: string, r: CreateResult)
    | Inspect(name: string, i: Inspection)
    | Remove(id: nat, ok: bool)
    | Start(id: nat, ok: bool)

  /** What else can fail: pulling a service's image, writing the compose file, and reading the
      ports, volumes and other settings of a service. */
  datatype World = World(pullFails: set<Name>, writeFails: bool, badSpecs: set<Name>)

  datatype Outcome = CircularOrder | PullFailed | WriteFailed | CreateFailed | Deployed

  /** The containers created and started so far, in order, and the removals called for. */
  datatype Books = Books(created: seq<nat>, started: seq<nat>, removeCalls: multiset<nat>)

  ghost function WithCalls(b: Books, calls: multiset<nat>): Books { b.(removeCalls := b.removeCalls + calls) }

  /** ids were created and started. */
  ghost function Ran(b: Books, ids: seq<nat>, calls: multiset<nat>): Books {
    Books(b.created + ids, b.started + ids, b.removeCalls + calls)
  }

  /** Then made last, which did not start and for which a removal was called. */
  ghost function Failed(b: Books, ids: seq<nat>, last: seq<nat>, calls: multiset<nat>): Books {
    Books(b.created + (ids + last), b.started + ids, b.removeCalls + calls + multiset(last))
  }

  lemma BooksAddUp(b: Books, ids: seq<nat>, more: seq<nat>, calls: multiset<nat>, extra: multiset<nat>)
    ensures Ran(Ran(b, ids, calls), more, extra) == Ran(b, ids + more, calls + extra)
    ensures Failed(Ran(b, ids, calls), [], more, extra) == Failed(b, ids, more, calls + extra)
  {
    assert [] + more == more;
    assert b.created + ids + more == b.created + (ids + more);
  }

  class Daemon {
    var containers: map<nat, Container>
    var next: nat
    ghost var answers: seq<Answer>
    ghost var books: Books
    ghost var refused: set<nat>

    ghost predicate Valid()
      reads this
    {
      forall id :: id in containers || id in refused ==> id < next
    }

    method ContainerCreate(name: string) returns (r: CreateResult)
      requires Valid()
      modifies this`containers, this`next, this`books, this`answers
      ensures Valid() && answers == old(answers) + [Create(name, r)]
      ensures r.Created? ==> && r.id == old(next) && next == old(next) + 1
                             && (forall id :: id in old(containers) ==> old(containers)[id].name != name)
                             && containers == old(containers)[r.id := Container(name, false)]
                             && books == old(books).(created := old(books).created + [r.id])
      ensures r.Refused? ==> containers == old(containers) && next == old(next) && books == old(books)
    {
      var broken: bool := *;
      if broken || exists id :: id in containers && containers[id].name == name {
        var text: bool := *;
        r := Refused(text);
        answers := answers + [Create(name, r)];
        return;
      }
      r := Created(next);
      answers := answers + [Create(name, r)];
      containers := containers[next := Container(name, false)];
      books := books.(created := books.created + [next]);
      next := next + 1;
    }

    method ContainerInspect(name: string) returns (r: Inspection)
      requires Valid()
      modifies this`answers
      ensures Valid() && answers == old(answers) + [Inspect(name, r)]
      ensures r.Inspected? ==> r.id in containers && containers[r.id] == Container(name, r.running)
    {
      var unreachable: bool := *;
      r := NotInspected;
      if !unreachable && exists id :: id in containers && containers[id].name == name {
        var id :| id in containers && containers[id].name == name;
        r := Inspected(id, containers[id].running);
      }
      answers := answers + [Inspect(name, r)];
    }

    method ContainerStart(id: nat) returns (ok: bool)
      requires Valid() && id in containers
      modifies this`containers, this`books, this`answers
      ensures Valid() && answers == old(answers) + [Start(id, ok)]
      ensures ok ==> containers == old(containers)[id := old(containers)[id].(running := true)]
      ensures ok ==> books == old(books).(started := old(books).started + [id])
      ensures !ok ==> containers == old(containers) && books == old(books)
    {
      ok := *;
      if ok {
        containers := containers[id := containers[id].(running := true)];
        books := books.(started := books.started + [id]);
      }
      answers := answers + [Start(id, ok)];
    }

    /** A forced removal; it fails when there is nothing to remove, and may fail otherwise. */
    method RemoveContainerByID(id: nat) returns (ok: bool)
      requires Valid() && id < next
      modifies this`containers, this`books, this`refused, this`answers
      ensures Valid() && answers == old(answers) + [Remove(id, ok)]
      ensures books == WithCalls(old(books), multiset{id})
      ensures ok ==> id in old(containers) && containers == old(containers) - {id} && refused == old(refused)
      ensures !ok ==> containers == old(containers) && refused == old(refused) + {id}
    {
      books := WithCalls(books, multiset{id});
      ok := *;
      if ok && id in containers {
        containers := containers - {id};
      } else {
        ok := false;
        refused := refused + {id};
      }
      answers := answers + [Remove(id, ok)];
    }
  }

  predicate StoppedHolder(a: Answer, name: string) {
    a.Inspect? && a.name == name && a.i.Inspected? && !a.i.running
  }

  /** How asking for a container ended in r: at the first answer, unless the name was in use.
      Then the holder is inspected, removed if it is stopped, and creating is tried once more. */
  ghost predicate CreateTalk(w: seq<Answer>, name: string, r: CreateResult) {
    || (w == [Create(name, r)] && r != Refused(true))
    || (|w| == 2 && r == Refused(true) && w[0] == Create(name, r)
        && w[1].Inspect? && w[1].name == name && !StoppedHolder(w[1], name))
    || (|w| == 3 && r == Refused(true) && w[0] == Create(name, r)
        && StoppedHolder(w[1], name) && w[2] == Remove(w[1].i.id, false))
    || (|w| == 4 && w[0] == Create(name, Refused(true))
        && StoppedHolder(w[1], name) && w[2] == Remove(w[1].i.id, true) && w[3] == Create(name, r))
  }

  /** How a whole service went: created and started, or not created, or not started and then
      told to go. */
  ghost predicate ServiceTalk(w: seq<Answer>, name: string, id: Option<nat>) {
    exists n, r :: 0 <= n <= |w| && CreateTalk(w[..n], name, r) && EndTalk(w[n..], r, id)
  }

  ghost predicate EndTalk(w: seq<Answer>, r: CreateResult, id: Option<nat>) {
    if r.Refused? then w == [] && id.None?
    else if id.Some? then w == [Start(r.id, true)] && id.value == r.id
    else |w| == 2 && w[0] == Start(r.id, false) && w[1].Remove? && w[1].id == r.id
  }

  /** The conversation from was to now contains w. */
  ghost predicate Heard(was: seq<Answer>, now: seq<Answer>, w: seq<Answer>) {
    exists p: nat :: |was| <= p && SaidAt(now, p, w)
  }

  ghost predicate SaidAt(now: seq<Answer>, p: nat, w: seq<Answer>) { p + |w| <= |now| && now[p..p + |w|] == w }

  lemma HeardLast(was: seq<Answer>, mid: seq<Answer>, w: seq<Answer>)
    requires was <= mid
    ensures Heard(was, mid + w, w)
  {
    assert SaidAt(mid + w, |mid|, w);
  }

  lemma HeardStill(was: seq<Answer>, now: seq<Answer>, later: seq<Answer>, w: seq<Answer>)
    requires Heard(was, now, w) && now <= later
    ensures Heard(was, later, w)
  {
    var p: nat :| |was| <= p && SaidAt(now, p, w);
    assert SaidAt(later, p, w);
  }

  /** Stopped containers that hold one of the names. */
  function StaleHolders(containers: map<nat, Container>, names: set<string>): set<nat> {
    set id | id in containers && containers[id].name in names && !containers[id].running
  }

  ghost predicate OnlyFrom(calls: multiset<nat>, ids: set<nat>) {
    forall id :: id in calls ==> id in ids
  }

  /** Whatever a deploy did not make stays as it was, apart from stopped holders of its names. */
  ghost predicate OthersKept(was: map<nat, Container>, now: map<nat, Container>, gone: set<nat>) {
    forall id :: id in was ==> (id in now <==> id !in gone) && (id !in gone ==> now[id] == was[id])
  }

  ghost predicate StaleTalk(was: seq<Answer>, now: seq<Answer>, name: string, removed: bool) {
    |was| < |now| && now[..|was|] == was &&
    var a := now[|was|];
    && a.Inspect? && a.name == name
    && if StoppedHolder(a, name) then now == was + [a, Remove(a.i.id, removed)] else now == was + [a] && !removed
  }

  /** tried: the removal call made, if any; gone: what it removed. */
  method RemoveStaleContainerByName(d: Daemon, name: string)
    returns (removed: bool, ghost tried: multiset<nat>, ghost gone: set<nat>)
    requires d.Valid()
    modifies d`containers, d`books, d`refused, d`answers
    ensures StaleTalk(old(d.answers), d.answers, name, removed)
    ensures d.Valid() && d.containers == old(d.containers) - gone
    ensures d.books == WithCalls(old(d.books), tried)
    ensures gone <= StaleHolders(old(d.containers), {name}) && OnlyFrom(tried, StaleHolders(old(d.containers), {name}))
    ensures removed <==> gone != {}
    ensures old(d.refused) <= d.refused
  {
    tried, gone := multiset{}, {};
    var r := d.ContainerInspect(name);
    if r.NotInspected? || r.running {
      return false, tried, gone;
    }
    removed := d.RemoveContainerByID(r.id);
    tried := multiset{r.id};
    if removed { gone := {r.id}; }
  }

  /** Create, and once more if the name was in use and its stopped holder could be removed. */
  method CreateContainer(d: Daemon, name: string)
    returns (r: CreateResult, ghost tried: multiset<nat>, ghost gone: set<nat>)
    requires d.Valid()
    modifies d`containers, d`next, d`books, d`answers, d`refused
    ensures old(d.answers) <= d.answers && CreateTalk(d.answers[|old(d.answers)|..], name, r)
    ensures d.Valid() && gone <= StaleHolders(old(d.containers), {name})
    ensures OnlyFrom(tried, StaleHolders(old(d.containers), {name}))
    ensures old(d.refused) <= d.refused
    ensures r.Created? ==> && r.id == old(d.next) && d.next == r.id + 1
                           && d.books == WithCalls(old(d.books), tried).(created := old(d.books).created + [r.id])
                           && d.containers == (old(d.containers) - gone)[r.id := Container(name, false)]
    ensures r.Refused? ==> && d.next == old(d.next) && d.books == WithCalls(old(d.books), tried)
                           && d.containers == old(d.containers) - gone
  {
    tried, gone := multiset{}, {};
    r := d.ContainerCreate(name);
    if r.Refused? && r.saysInUse {
      var removed;
      removed, tried, gone := RemoveStaleContainerByName(d, name);
      if removed {
        r := d.ContainerCreate(name);
      }
    }
  }

  /** A container that does not start is to be removed at once. */
  method StartOrRemove(d: Daemon, id: nat) returns (ok: bool)
    requires d.Valid() && id in d.containers
    modifies d`containers, d`books, d`refused, d`answers
    ensures ok ==> d.answers == old(d.answers) + [Start(id, true)]
    ensures !ok ==> exists gone :: d.answers == old(d.answers) + [Start(id, false), Remove(id, gone)]
    ensures d.Valid() && old(d.refused) <= d.refused
    ensures ok ==> d.containers == old(d.containers)[id := old(d.containers)[id].(running := true)]
    ensures ok ==> d.books == old(d.books).(started := old(d.books).started + [id])
    ensures !ok ==> d.books == WithCalls(old(d.books), multiset{id})
    ensures !ok ==> d.containers == old(d.containers) - {id} || (d.containers == old(d.containers) && id in d.refused)
  {
    ok := d.ContainerStart(id);
    if !ok {
      var gone := d.RemoveContainerByID(id);
      assert d.answers == old(d.answers) + [Start(id, false), Remove(id, gone)];
    }
  }

  lemma LeftAfterFailure(was: map<nat, Container>, made: map<nat, Container>, now: map<nat, Container>, gone: set<nat>,
                         id: nat, name: string, refused: set<nat>)
    requires id !in was && made == (was - gone)[id := Container(name, false)]
    requires now == made - {id} || (now == made && id in refused)
    ensures OthersKept(was, now, gone)
    ensures forall i :: i in now && i !in was ==> i == id && i in refused
  {
  }

  lemma BooksOfOne(b: Books, id: nat, calls: multiset<nat>)
    ensures var c := WithCalls(b, calls).(created := b.created + [id]);
            && c.(started := c.started + [id]) == Ran(b, [id], calls)
            && WithCalls(c, multiset{id}) == Failed(b, [], [id], calls)
  {
    assert [] + [id] == [id];
    assert multiset([id]) == multiset{id};
  }

  lemma TalkOf(was: seq<Answer>, asked: seq<Answer>, talk: seq<Answer>, end: seq<Answer>, name: string, r: CreateResult,
               id: Option<nat>)
    requires was <= asked && talk == asked[|was|..] && CreateTalk(talk, name, r) && EndTalk(end, r, id)
    ensures was <= asked + end && ServiceTalk((asked + end)[|was|..], name, id)
  {
    var w := (asked + end)[|was|..];
    assert w == talk + end && w[..|talk|] == talk && w[|talk|..] == end;
    assert 0 <= |talk| <= |w| && CreateTalk(w[..|talk|], name, r) && EndTalk(w[|talk|..], r, id);
  }

  /** A service that starts leaves exactly its running container; one that fails leaves at
      most a container that it made itself and for which a removal was called and refused. */
  method CreateAndStartService(d: Daemon, name: string, badSpec: bool)
    returns (id: Option<nat>, ghost tried: multiset<nat>, ghost gone: set<nat>, ghost mine: seq<nat>)
    requires d.Valid()
    modifies d
    ensures old(d.answers) <= d.answers
    ensures if badSpec then id.None? && d.answers == old(d.answers)
            else ServiceTalk(d.answers[|old(d.answers)|..], name, id)
    ensures d.Valid() && gone <= StaleHolders(old(d.containers), {name})
    ensures OnlyFrom(tried, StaleHolders(old(d.containers), {name}))
    ensures d.next == old(d.next) + |mine|
    ensures mine == [] || mine == [old(d.next)]
    ensures old(d.refused) <= d.refused
    ensures id.Some? ==> && mine == [id.value] && d.books == Ran(old(d.books), mine, tried)
                         && d.containers == (old(d.containers) - gone)[id.value := Container(name, true)]
    ensures id.None? ==> && d.books == Failed(old(d.books), [], mine, tried)
                         && OthersKept(old(d.containers), d.containers, gone)
                         && (forall i :: i in d.containers && i !in old(d.containers) ==> i in mine && i in d.refused)
  {
    id, tried, gone, mine := None, multiset{}, {}, [];
    if badSpec { return; }
    var r;
    r, tried, gone := CreateContainer(d, name);
    ghost var talk := d.answers[|old(d.answers)|..];
    if r.Refused? {
      TalkOf(old(d.answers), d.answers, talk, [], name, r, None);
      assert d.answers + [] == d.answers;
      return;
    }
    mine := [r.id];
    ghost var made, asked := d.containers, d.answers;
    var started := StartOrRemove(d, r.id);
    TalkOf(old(d.answers), asked, talk, d.answers[|asked|..], name, r, if started then Some(r.id) else None);
    assert asked + d.answers[|asked|..] == d.answers;
    BooksOfOne(old(d.books), r.id, tried);
    if started {
      id := Some(r.id);
    } else {
      LeftAfterFailure(old(d.containers), made, d.containers, gone, r.id, name, d.refused);
    }
  }

  // ---- A whole deploy ------------------------------------------------------------------------

  function ContainerName(project: string, service: Name): string { project + "_" + service }

  /** Two services share a container name exactly when they are the same, or when one project's
      name continues the other's with an underscore and the services make up the difference. */
  lemma NamesClashIff(p: string, a: Name, q: string, b: Name)
    ensures ContainerName(p, a) == ContainerName(q, b) <==>
            || (p == q && a == b)
            || (exists x :: p == q + "_" + x && b == x + "_" + a)
            || (exists x :: q == p + "_" + x && a == x + "_" + b)
  {
    var s, t := ContainerName(p, a), ContainerName(q, b);
    if s == t {
      if |p| == |q| {
        assert s[..|p|] == p && t[..|q|] == q && s[|p| + 1..] == a && t[|q| + 1..] == b;
      } else if |p| > |q| {
        ShorterFirst(q, b, p, a);
      } else {
        ShorterFirst(p, a, q, b);
      }
    }
    forall x | p == q + "_" + x && b == x + "_" + a ensures s == t {
      assert s == q + "_" + x + "_" + a;
    }
    forall x | q == p + "_" + x && a == x + "_" + b ensures s == t {
      assert t == p + "_" + x + "_" + b;
    }
  }

  lemma ShorterFirst(q: string, b: Name, p: string, a: Name)
    requires |q| < |p| && ContainerName(p, a) == ContainerName(q, b)
    ensures exists x :: p == q + "_" + x && b == x + "_" + a
  {
    var t := ContainerName(q, b);
    var x := p[|q| + 1..];
    assert p == t[..|p|] == q + "_" + x;
    assert b == t[|q| + 1..] == x + "_" + a;
  }

  function NamesOf(project: string, order: seq<Name>): set<string> {
    set n | n in order :: ContainerName(project, n)
  }

  /** ids are the running containers of the first services of the order, made in that order. */
  ghost predicate Running(now: map<nat, Container>, project: string, order: seq<Name>, first: nat, ids: seq<nat>) {
    && |ids| <= |order|
    && (forall k :: 0 <= k < |ids| ==>
          ids[k] == first + k && ids[k] in now && now[ids[k]] == Container(ContainerName(project, order[k]), true))
  }

  /** The state between two turns of the create loop. */
  ghost predicate Underway(was: map<nat, Container>, now: map<nat, Container>, project: string, order: seq<Name>,
                           first: nat, ids: seq<nat>, gone: set<nat>)
  {
    && Running(now, project, order, first, ids)
    && OthersKept(was, now, gone)
    && (forall id :: id in now && id !in was ==> id in ids)
    && gone <= StaleHolders(was, NamesOf(project, order))
  }

  /** During the loop every stopped container with a name of the project is an old one. */
  lemma StaleAreOld(was: map<nat, Container>, now: map<nat, Container>, project: string, order: seq<Name>,
                    first: nat, ids: seq<nat>, gone: set<nat>, k: nat)
    requires Underway(was, now, project, order, first, ids, gone) && k < |order|
    ensures StaleHolders(now, {ContainerName(project, order[k])}) <= StaleHolders(was, NamesOf(project, order)) - gone
  {
    assert ContainerName(project, order[k]) in NamesOf(project, order);
  }

  /** One turn that succeeds. */
  lemma UnderwayOneMore(was: map<nat, Container>, now: map<nat, Container>, project: string, order: seq<Name>,
                        first: nat, ids: seq<nat>, gone: set<nat>, stale: set<nat>)
    requires Underway(was, now, project, order, first, ids, gone) && |ids| < |order|
    requires stale <= StaleHolders(now, {ContainerName(project, order[|ids|])})
    requires forall id :: id in was ==> id < first
    ensures Underway(was, (now - stale)[first + |ids| := Container(ContainerName(project, order[|ids|]), true)], project,
                     order, first, ids + [first + |ids|], gone + stale)
  {
    StaleAreOld(was, now, project, order, first, ids, gone, |ids|);
    var id, more := first + |ids|, ids + [first + |ids|];
    var result := (now - stale)[id := Container(ContainerName(project, order[|ids|]), true)];
    forall k | 0 <= k < |more|
      ensures more[k] == first + k && more[k] in result && result[more[k]] == Container(ContainerName(project, order[k]), true)
    {
      if k < |ids| { assert now[ids[k]].running; }
    }
  }

  /** The create loop has stopped: ids run; what was made for a service that failed is gone,
      or its removal was refused. */
  ghost predicate Halted(was: map<nat, Container>, now: map<nat, Container>, refused: set<nat>, project: string,
                         order: seq<Name>, first: nat, ids: seq<nat>, last: seq<nat>, gone: set<nat>)
  {
    && Running(now, project, order, first, ids)
    && OthersKept(was, now, gone)
    && (forall id :: id in now && id !in was ==> id in ids || (id in last && id in refused))
    && gone <= StaleHolders(was, NamesOf(project, order))
  }

  /** One turn that fails. */
  lemma UnderwayHalts(was: map<nat, Container>, before: map<nat, Container>, now: map<nat, Container>, refused: set<nat>,
                      project: string, order: seq<Name>, first: nat, ids: seq<nat>, last: seq<nat>, gone: set<nat>, stale: set<nat>)
    requires Underway(was, before, project, order, first, ids, gone) && |ids| < |order|
    requires stale <= StaleHolders(before, {ContainerName(project, order[|ids|])})
    requires OthersKept(before, now, stale)
    requires forall id :: id in now && id !in before ==> id in last && id in refused
    requires forall id :: id in last ==> id !in was
    ensures Halted(was, now, refused, project, order, first, ids, last, gone + stale)
  {
    StaleAreOld(was, before, project, order, first, ids, gone, |ids|);
    forall k | 0 <= k < |ids|
      ensures ids[k] in now && now[ids[k]] == Container(ContainerName(project, order[k]), true)
    {
      assert before[ids[k]].running;
    }
  }

  /** One turn of the create loop; was and first are the containers and the next id before it. */
  method CreateNext(d: Daemon, project: string, order: seq<Name>, ids: seq<nat>, badSpecs: set<Name>,
                    ghost was: map<nat, Container>, ghost first: nat, ghost gone: set<nat>)
    returns (id: Option<nat>, ghost last: seq<nat>, ghost calls: multiset<nat>, ghost stale: set<nat>)
    requires d.Valid() && |ids| < |order| && d.next == first + |ids|
    requires Underway(was, d.containers, project, order, first, ids, gone)
    requires forall id :: id in was ==> id < first
    modifies d
    ensures old(d.answers) <= d.answers
    ensures if order[|ids|] in badSpecs then id.None? && d.answers == old(d.answers)
            else ServiceTalk(d.answers[|old(d.answers)|..], ContainerName(project, order[|ids|]), id)
    ensures d.Valid() && OnlyFrom(calls, StaleHolders(was, NamesOf(project, order)))
    ensures |last| <= 1 && (forall i :: i in last ==> i == first + |ids|) && d.next == first + |ids| + |last|
    ensures id.Some? ==> last == [id.value] && d.books == Ran(old(d.books), last, calls)
                         && Underway(was, d.containers, project, order, first, ids + last, gone + stale)
    ensures id.None? ==> d.books == Failed(old(d.books), [], last, calls)
                         && Halted(was, d.containers, d.refused, project, order, first, ids, last, gone + stale)
  {
    StaleAreOld(was, d.containers, project, order, first, ids, gone, |ids|);
    ghost var before := d.containers;
    id, calls, stale, last := CreateAndStartService(d, ContainerName(project, order[|ids|]), order[|ids|] in badSpecs);
    if id.None? {
      UnderwayHalts(was, before, d.containers, d.refused, project, order, first, ids, last, gone, stale);
    } else {
      UnderwayOneMore(was, before, project, order, first, ids, gone, stale);
    }
  }

  /** The service at position k is why the create loop stopped: its settings are bad, or the
      daemon would not create or start its container. */
  ghost predicate Stopped(was: seq<Answer>, now: seq<Answer>, project: string, order: seq<Name>, badSpecs: set<Name>, k: nat) {
    && k < |order| && (forall j :: 0 <= j < k ==> order[j] !in badSpecs)
    && (order[k] in badSpecs || exists w :: Heard(was, now, w) && ServiceTalk(w, ContainerName(project, order[k]), None))
  }

  lemma StoppedStill(was: seq<Answer>, now: seq<Answer>, later: seq<Answer>, project: string, order: seq<Name>,
                     badSpecs: set<Name>, k: nat)
    requires Stopped(was, now, project, order, badSpecs, k) && now <= later
    ensures Stopped(was, later, project, order, badSpecs, k)
  {
    if order[k] !in badSpecs {
      var w :| Heard(was, now, w) && ServiceTalk(w, ContainerName(project, order[k]), None);
      HeardStill(was, now, later, w);
    }
  }

  lemma StopsHere(was: seq<Answer>, mid: seq<Answer>, now: seq<Answer>, project: string, order: seq<Name>,
                  badSpecs: set<Name>, k: nat)
    requires k < |order| && was <= mid <= now && forall j :: 0 <= j < k ==> order[j] !in badSpecs
    requires order[k] in badSpecs || ServiceTalk(now[|mid|..], ContainerName(project, order[k]), None)
    ensures Stopped(was, now, project, order, badSpecs, k)
  {
    if order[k] !in badSpecs {
      HeardLast(was, mid, now[|mid|..]);
      assert mid + now[|mid|..] == now;
    }
  }

  /** The create loop stops at the first service that fails. ids are the containers that run;
      last is the one that was made for the failing service, if any: its removal was called. */
  method CreateAll(d: Daemon, project: string, order: seq<Name>, badSpecs: set<Name>)
    returns (ok: bool, ids: seq<nat>, ghost last: seq<nat>, ghost tried: multiset<nat>, ghost gone: set<nat>)
    requires d.Valid()
    modifies d
    ensures old(d.answers) <= d.answers
    ensures if ok then forall n :: n in order ==> n !in badSpecs
            else Stopped(old(d.answers), d.answers, project, order, badSpecs, |ids|)
    ensures d.Valid() && OnlyFrom(tried, StaleHolders(old(d.containers), NamesOf(project, order)))
    ensures Halted(old(d.containers), d.containers, d.refused, project, order, old(d.next), ids, last, gone)
    ensures d.books == Failed(old(d.books), ids, last, tried)
    ensures d.next == old(d.next) + |ids + last| && |last| <= 1
    ensures forall id :: id in last ==> id == old(d.next) + |ids|
    ensures ok ==> |ids| == |order| && last == []
  {
    ids, last, tried, gone := [], [], multiset{}, {};
    ghost var was, first := d.containers, d.next;
    for i := 0 to |order|
      invariant d.Valid() && |ids| == i && d.next == first + i && last == []
      invariant Underway(was, d.containers, project, order, first, ids, gone)
      invariant OnlyFrom(tried, StaleHolders(was, NamesOf(project, order)))
      invariant d.books == Ran(old(d.books), ids, tried)
      invariant old(d.answers) <= d.answers && forall j :: 0 <= j < i ==> order[j] !in badSpecs
    {
      ghost var said := d.answers;
      var id;
      ghost var calls, stale;
      id, last, calls, stale := CreateNext(d, project, order, ids, badSpecs, was, first, gone);
      BooksAddUp(old(d.books), ids, last, tried, calls);
      assert OnlyFrom(tried + calls, StaleHolders(was, NamesOf(project, order)));
      tried, gone := tried + calls, gone + stale;
      if id.None? {
        StopsHere(old(d.answers), said, d.answers, project, order, badSpecs, i);
        return false, ids, last, tried, gone;
      }
      ids, last := ids + [id.value], [];
    }
    return true, ids, last, tried, gone;
  }

  /** The removals after a failed deploy: every container of the list, whatever the daemon says. */
  method Cleanup(d: Daemon, ids: seq<nat>)
    requires d.Valid() && forall id :: id in ids ==> id < d.next
    modifies d`containers, d`books, d`refused, d`answers
    ensures old(d.answers) <= d.answers
    ensures d.Valid() && d.books == WithCalls(old(d.books), multiset(ids))
    ensures old(d.refused) <= d.refused
    ensures forall id :: id in d.containers ==> id in old(d.containers) && d.containers[id] == old(d.containers)[id]
    ensures forall id :: id in old(d.containers) && id !in d.containers ==> id in ids
    ensures forall id :: id in d.containers && id in ids ==> id in d.refused
  {
    for i := 0 to |ids|
      invariant d.Valid() && d.books == WithCalls(old(d.books), multiset(ids[..i])) && old(d.answers) <= d.answers
      invariant old(d.refused) <= d.refused
      invariant forall id :: id in d.containers ==> id in old(d.containers) && d.containers[id] == old(d.containers)[id]
      invariant forall id :: id in old(d.containers) && id !in d.containers ==> id in ids[..i]
      invariant forall id :: id in d.containers && id in ids[..i] ==> id in d.refused
    {
      assert ids[..i + 1] == ids[..i] + [ids[i]] && ids[i] in ids;
      var _ := d.RemoveContainerByID(ids[i]);
    }
    assert ids[..|ids|] == ids;
  }

  /** Every service was started after all its dependencies; started lists the starts in order. */
  ghost predicate StartedInOrder(g: Graph, project: string, now: map<nat, Container>, started: seq<nat>) {
    forall a, b :: Edge(g, a, b) ==>
      exists i, j :: 0 <= i < j < |started| && RunsService(now, started[i], project, b) && RunsService(now, started[j], project, a)
  }

  predicate RunsService(now: map<nat, Container>, id: nat, project: string, service: Name) {
    id in now && now[id] == Container(ContainerName(project, service), true)
  }

  ghost predicate AllRun(g: Graph, project: string, now: map<nat, Container>, made: seq<nat>) {
    forall n :: n in Nodes(g) ==> exists i :: 0 <= i < |made| && RunsService(now, made[i], project, n)
  }

  lemma OrderGivesStarts(g: Graph, project: string, order: seq<Name>, now: map<nat, Container>, first: nat, ids: seq<nat>)
    requires IsStartOrder(g, order) && Running(now, project, order, first, ids) && |ids| == |order|
    ensures StartedInOrder(g, project, now, ids)
    ensures AllRun(g, project, now, ids)
  {
    forall n | n in Nodes(g) ensures exists i :: 0 <= i < |ids| && RunsService(now, ids[i], project, n) {
      var i :| 0 <= i < |order| && order[i] == n;
      assert RunsService(now, ids[i], project, n);
    }
    forall a, b | Edge(g, a, b)
      ensures exists i, j :: 0 <= i < j < |ids| && RunsService(now, ids[i], project, b) && RunsService(now, ids[j], project, a)
    {
      assert a in Nodes(g);
      var j :| 0 <= j < |order| && order[j] == a;
      assert b in order[..j];
      var i :| 0 <= i < j && order[i] == b;
      assert RunsService(now, ids[i], project, b) && RunsService(now, ids[j], project, a);
    }
  }

  /** What is not the deploy's own stays as it was, except for stopped holders of its names;
      no removal is called for anything else. */
  ghost predicate Touches(was: map<nat, Container>, now: map<nat, Container>, project: string, order: seq<Name>,
                          gone: set<nat>, tried: multiset<nat>)
  {
    && OthersKept(was, now, gone)
    && gone <= StaleHolders(was, NamesOf(project, order))
    && OnlyFrom(tried, StaleHolders(was, NamesOf(project, order)))
  }

  /** So a container that was running before is never asked to be removed, and stays. */
  lemma RunningIsSafe(was: map<nat, Container>, now: map<nat, Container>, project: string, order: seq<Name>,
                      gone: set<nat>, tried: multiset<nat>, id: nat)
    requires Touches(was, now, project, order, gone, tried) && id in was && was[id].running
    ensures id !in tried && id in now && now[id] == was[id]
  {
  }

  /** A failed deploy called one removal for each container it made, and what is left of them
      refused it. */
  ghost predicate Undone(was: map<nat, Container>, now: map<nat, Container>, refused: set<nat>, made: seq<nat>) {
    forall id :: id in now && id !in was ==> id in made && id in refused
  }

  /** If no removal was refused either, the containers are those from before, without the
      stopped ones that stood in the way. */
  lemma FailureRestores(was: map<nat, Container>, now: map<nat, Container>, project: string, order: seq<Name>,
                        gone: set<nat>, tried: multiset<nat>, refused: set<nat>, made: seq<nat>)
    requires Touches(was, now, project, order, gone, tried) && Undone(was, now, refused, made)
    requires forall id :: id in made ==> id !in refused
    ensures now == was - gone
  {
  }

  /** The create loop with its cleanup. made are the containers it created, in order; tried
      are removal calls for stopped holders of the names, and gone those that were removed. */
  method CreateOrUndo(d: Daemon, project: string, order: seq<Name>, badSpecs: set<Name>)
    returns (ok: bool, ghost made: seq<nat>, ghost tried: multiset<nat>, ghost gone: set<nat>)
    requires d.Valid()
    modifies d
    ensures if ok then forall n :: n in order ==> n !in badSpecs
            else exists k: nat :: |made| - 1 <= k <= |made| && Stopped(old(d.answers), d.answers, project, order, badSpecs, k)
    ensures d.Valid() && d.books.created == old(d.books).created + made
    ensures forall k :: 0 <= k < |made| ==> made[k] == old(d.next) + k
    ensures Touches(old(d.containers), d.containers, project, order, gone, tried)
    ensures ok ==> && d.books == Ran(old(d.books), made, tried)
                   && Running(d.containers, project, order, old(d.next), made) && |made| == |order|
    ensures !ok ==> && d.books.removeCalls == old(d.books).removeCalls + tried + multiset(made)
                    && Undone(old(d.containers), d.containers, d.refused, made)
  {
    ghost var was, first := d.containers, d.next;
    var ids;
    ghost var last;
    ok, ids, last, tried, gone := CreateAll(d, project, order, badSpecs);
    made := ids + last;
    assert forall k :: 0 <= k < |made| ==> made[k] == first + k by {
      forall k | 0 <= k < |made| ensures made[k] == first + k {
        if k >= |ids| { assert made[k] in last; }
      }
    }
    if ok {
      assert made == ids;
    } else {
      ghost var said := d.answers;
      Cleanup(d, ids);
      StoppedStill(old(d.answers), said, d.answers, project, order, badSpecs, |ids|);
      assert multiset(made) == multiset(last) + multiset(ids);
    }
  }

  /** A deploy of a compose file. When it fails before the create loop nothing was touched. */
  method DeployComposeStreamed(d: Daemon, project: string, services: map<Name, DependsOn>, world: World)
    returns (outcome: Outcome, ghost order: seq<Name>, ghost made: seq<nat>, ghost tried: multiset<nat>, ghost gone: set<nat>)
    requires d.Valid()
    modifies d
    ensures d.Valid() && d.books.created == old(d.books).created + made
    ensures forall k :: 0 <= k < |made| ==> made[k] == old(d.next) + k
    ensures outcome.CircularOrder? <==> !Acyclic(ServiceGraph(services))
    ensures !outcome.CircularOrder? ==> IsStartOrder(ServiceGraph(services), order)
    ensures Touches(old(d.containers), d.containers, project, order, gone, tried)
    ensures outcome.PullFailed? <==> !outcome.CircularOrder? && exists n :: n in order && n in world.pullFails
    ensures outcome.WriteFailed? <==> !outcome.CircularOrder? && !outcome.PullFailed? && world.writeFails
    ensures outcome.CreateFailed? ==>
              exists k: nat :: |made| - 1 <= k <= |made| && Stopped(old(d.answers), d.answers, project, order, world.badSpecs, k)
    ensures outcome.Deployed? ==> forall n :: n in order ==> n !in world.badSpecs
    ensures outcome.Deployed? ==>
              && d.books == Ran(old(d.books), made, tried)
              && StartedInOrder(ServiceGraph(services), project, d.containers, made)
              && AllRun(ServiceGraph(services), project, d.containers, made)
    ensures outcome.CreateFailed? ==>
              && d.books.removeCalls == old(d.books).removeCalls + tried + multiset(made)
              && Undone(old(d.containers), d.containers, d.refused, made)
    ensures !outcome.Deployed? && !outcome.CreateFailed? ==> made == [] && unchanged(d)
  {
    order, made, tried, gone := [], [], multiset{}, {};
    var r := ResolveStartOrder(services);
    if r.Circular? {
      return CircularOrder, order, made, tried, gone;
    }
    order := r.order;
    for i := 0 to |r.order|
      invariant forall j :: 0 <= j < i ==> r.order[j] !in world.pullFails
    {
      if r.order[i] in world.pullFails { return PullFailed, order, made, tried, gone; }
    }
    if world.writeFails { return WriteFailed, order, made, tried, gone; }
    var ok;
    ok, made, tried, gone := CreateOrUndo(d, project, r.order, world.badSpecs);
    if !ok { return CreateFailed, order, made, tried, gone; }
    OrderGivesStarts(ServiceGraph(services), project, order, d.containers, old(d.next), made);
    return Deployed, order, made, tried, gone;
  }
}
