/** Broadcasts that disconnect clients, whose disconnection is broadcast in turn. */
module Cascades {
  import opened Octets
  import opened Framing
  import opened Secretbox
  import opened ServerState

  // ------------------------------------------------------------ what a link can take

  // The bytes on the wire that delivering an entry takes.
  function Cost(e: Entry): nat {
    4 + if e.Forward? then |e.raw| else NONCE_BYTES + MAC_BYTES + |Notice(e)|
  }

  function CostAll(es: seq<Entry>): nat {
    if es == [] then 0 else Cost(es[0]) + CostAll(es[1..])
  }

  lemma {:induction false} CostAllConcat(es: seq<Entry>, fs: seq<Entry>)
    ensures CostAll(es + fs) == CostAll(es) + CostAll(fs)
  {
    if es == [] {
      assert es + fs == fs;
    } else {
      assert (es + fs)[1..] == es[1..] + fs;
      CostAllConcat(es[1..], fs);
    }
  }

  lemma {:induction false} CostOfPackets(k: Context, ps: seq<Bytes>, es: seq<Entry>)
    requires CarryAll(k, ps, es)
    ensures |FrameAll(ps)| == CostAll(es)
  {
    if ps != [] {
      assert Carries(k, ps[0], es[0]);
      CostOfPackets(k, ps[1..], es[1..]);
    }
  }

  // Whether a link survives being sent the entries depends only on what they cost.
  lemma FedExactly(k: Context, l: Link, m: Link, es: seq<Entry>)
    requires l.Valid() && Fed(k, l, m, es)
    ensures m.Valid()
    ensures m.failed <==> l.failed || CostAll(es) > l.budget
    ensures !m.failed ==> m.budget == l.budget - CostAll(es)
  {
    var ps :| CarryAll(k, ps, es) && m == l.SendAll(ps);
    CostOfPackets(k, ps, es);
    if l.failed {
      FailureIsPermanent(l, ps);
    } else {
      SendAllExactly(l, ps);
      FitsAllExactly(ps, l.budget);
    }
  }

  lemma FedConcat(k: Context, l: Link, m: Link, n: Link, es: seq<Entry>, fs: seq<Entry>)
    requires Fed(k, l, m, es) && Fed(k, m, n, fs)
    ensures Fed(k, l, n, es + fs)
  {
    var ps :| CarryAll(k, ps, es) && m == l.SendAll(ps);
    var qs :| CarryAll(k, qs, fs) && n == m.SendAll(qs);
    SendAllConcat(l, ps, qs);
    assert CarryAll(k, ps + qs, es + fs);
  }

  lemma OnePacket(k: Context, l: Link, p: Bytes, e: Entry)
    requires Carries(k, p, e)
    ensures Fed(k, l, l.Send(p), [e])
  {
    assert l.SendAll([p]) == l.Send(p).SendAll([]);
    assert CarryAll(k, [p], [e]);
  }

  // ------------------------------------------------------------ how a cascade unfolds

  lemma DropKeepsStructure(s: State, fd: int, refused: bool)
    requires Structure(s) && fd in s.clients
    ensures Structure(Drop(s, fd, refused))
  {
    var t := Drop(s, fd, refused);
    forall name ensures name in t.usernames <==> name in Names(t.clients) {
      if name in t.usernames {
        var a :| a in s.clients && s.clients[a].registered && s.clients[a].username == name;
        assert Registered(s, a);
        assert a != fd;
        assert a in t.clients;
      }
      if name in Names(t.clients) {
        var a :| a in t.clients && t.clients[a].registered && t.clients[a].username == name;
        assert Registered(s, a) && (s.clients[fd].registered ==> Registered(s, fd));
      }
    }
    forall a | Registered(t, a) ensures t.clients[a].keyExchanged && a in t.joins {
      assert Registered(s, a);
    }
    forall a, b | Registered(t, a) && Registered(t, b) && a != b
      ensures t.clients[a].username != t.clients[b].username
    {
      assert Registered(s, a) && Registered(s, b);
    }
  }

  lemma RoundKeepsStructure(k: Context, s: State, e: Entry, t: State)
    requires Structure(s) && Round(k, s, e, t)
    ensures Structure(t)
  {
    forall fd | fd in t.clients ensures t.links[fd].Valid() {
      if Registered(s, fd) {
        FedExactly(k, s.links[fd], t.links[fd], [e]);
      }
    }
    assert forall fd :: Registered(t, fd) ==> Registered(s, fd);
  }

  lemma CascadeKeepsStructure(k: Context, s: State, e: Entry, removed: seq<int>, t: State)
    requires Structure(s) && Cascade(k, s, e, removed, t)
    ensures Structure(t)
  {
    forall fd | fd in t.clients ensures t.links[fd].Valid() {
      if Registered(s, fd) {
        FedExactly(k, s.links[fd], t.links[fd], Distributed(s, e, removed));
      }
    }
    assert forall fd :: Registered(t, fd) ==> Registered(s, fd);
  }

  // A round in which every send succeeds is the whole cascade.
  lemma QuietCascade(k: Context, s: State, e: Entry, t: State)
    requires Structure(s) && Round(k, s, e, t)
    requires forall fd :: Registered(s, fd) ==> !t.links[fd].failed
    ensures Cascade(k, s, e, [], t)
  {
    assert Distributed(s, e, []) == [e];
    assert s.clients - Elements([]) == s.clients;
  }

  // The state and the farewells seen by the nested broadcast, in terms of the outer one.
  lemma NestedEntries(k: Context, s: State, e: Entry, s1: State, first: int, rest: seq<int>)
    requires Round(k, s, e, s1) && Registered(s, first) && first in s1.links
    requires forall i :: 0 <= i < |rest| ==> rest[i] != first
    ensures var nested := Drop(s1, first, false);
            && Distributed(s, e, [first] + rest) == [e] + Distributed(nested, Disconnected(s.clients[first].username), rest)
            && forall i :: 0 <= i <= |rest| ==>
                 Distributed(s, e, [first] + rest)[..i + 1] ==
                 [e] + Distributed(nested, Disconnected(s.clients[first].username), rest)[..i]
  {
    var nested := Drop(s1, first, false);
    var inner := Distributed(nested, Disconnected(s.clients[first].username), rest);
    var outer := Distributed(s, e, [first] + rest);
    forall j | 2 <= j < |outer| ensures outer[j] == inner[j - 1] {
      assert NameOf(s.clients, rest[j - 2]) == NameOf(nested.clients, rest[j - 2]);
    }
    assert outer == [e] + inner;
  }

  // What NestedCascade assumes.
  ghost predicate Nested(k: Context, s: State, e: Entry, s1: State, first: int, rest: seq<int>, t: State) {
    && Structure(s) && Round(k, s, e, s1)
    && Registered(s, first) && first in s1.links && s1.links[first].failed
    && Cascade(k, Drop(s1, first, false), Disconnected(s.clients[first].username), rest, t)
  }

  lemma NestedRemoved(k: Context, s: State, e: Entry, s1: State, first: int, rest: seq<int>, t: State)
    requires Nested(k, s, e, s1, first, rest, t)
    ensures var removed := [first] + rest;
            && NoDuplicates(removed) && Elements(removed) == {first} + Elements(rest)
            && forall i :: 0 <= i < |removed| ==> Registered(s, removed[i])
    ensures forall i :: 0 <= i < |rest| ==> rest[i] != first
  {
    hide Structure, Fed, Casualty, Names, Distributed;
    var removed := [first] + rest;
    assert forall i :: 0 <= i < |rest| ==> Registered(Drop(s1, first, false), rest[i]);
    assert forall i :: 0 < i < |removed| ==> removed[i] == rest[i - 1];
    forall fd ensures fd in Elements(removed) <==> fd == first || fd in Elements(rest) {
      if fd in Elements(rest) {
        var i :| 0 <= i < |rest| && rest[i] == fd;
        assert removed[i + 1] == fd;
      }
      if fd == first {
        assert removed[0] == fd;
      }
    }
  }

  lemma NestedSurvivor(k: Context, s: State, e: Entry, s1: State, first: int, rest: seq<int>, t: State, fd: int)
    requires Nested(k, s, e, s1, first, rest, t) && Registered(s, fd) && fd in t.clients
    ensures fd in s1.links && !s1.links[fd].failed && !t.links[fd].failed
    ensures Fed(k, s.links[fd], t.links[fd], Distributed(s, e, [first] + rest))
  {
    var nested, farewell := Drop(s1, first, false), Disconnected(s.clients[first].username);
    RoundKeepsStructure(k, s, e, s1);
    NestedRemoved(k, s, e, s1, first, rest, t);
    NestedEntries(k, s, e, s1, first, rest);
    assert Registered(nested, fd);
    FedConcat(k, s.links[fd], s1.links[fd], t.links[fd], [e], Distributed(nested, farewell, rest));
    FedExactly(k, s1.links[fd], t.links[fd], Distributed(nested, farewell, rest));
  }

  /**
   The step of the recursion: a round of sending, then the disconnection of one client whose
   send failed, with everything that this sets off, is the cascade that removes this client
   first. After it no client whose send failed in the round is left.
   */
  lemma NestedCascade(k: Context, s: State, e: Entry, s1: State, first: int, rest: seq<int>, t: State)
    requires Nested(k, s, e, s1, first, rest, t)
    ensures Cascade(k, s, e, [first] + rest, t)
    ensures forall fd :: Registered(s, fd) && fd in s1.links && s1.links[fd].failed ==> fd !in t.clients
  {
    hide Nested, Fed, Casualty, NoDuplicates, Elements, Distributed, Names;
    var removed := [first] + rest;
    NestedTables(k, s, e, s1, first, rest, t);
    forall fd | Registered(s, fd) && fd in t.clients
      ensures Fed(k, s.links[fd], t.links[fd], Distributed(s, e, removed)) && !t.links[fd].failed
      ensures fd in s1.links && !s1.links[fd].failed
    {
      NestedSurvivor(k, s, e, s1, first, rest, t, fd);
    }
    forall i | 0 <= i < |removed| ensures Casualty(k, s, e, removed, i, t) {
      NestedCasualty(k, s, e, s1, first, rest, t, i);
    }
  }

  // The conditions of Cascade on the tables and the history.
  lemma NestedTables(k: Context, s: State, e: Entry, s1: State, first: int, rest: seq<int>, t: State)
    requires Nested(k, s, e, s1, first, rest, t)
    ensures var removed := [first] + rest;
            && NoDuplicates(removed) && (forall i :: 0 <= i < |removed| ==> Registered(s, removed[i]))
            && s.links.Keys == s.clients.Keys && t.links.Keys == t.clients.Keys
            && t.clients == s.clients - Elements(removed) && t.usernames == Names(t.clients)
            && t.log == s.log + Distributed(s, e, removed) && t.joins == s.joins
            && |t.closed| == |s.closed| + |removed| && s.closed <= t.closed
            && forall fd :: fd in t.clients && !Registered(s, fd) ==> t.links[fd] == s.links[fd]
  {
    hide Fed, Casualty, NoDuplicates, Names;
    assert s.links.Keys == s.clients.Keys;
    hide Structure;
    NestedRemoved(k, s, e, s1, first, rest, t);
    NestedEntries(k, s, e, s1, first, rest);
    var removed := [first] + rest;
    assert t.clients == s.clients - Elements(removed);
    assert t.log == s.log + Distributed(s, e, removed);
  }

  lemma FirstCasualty(k: Context, s: State, e: Entry, s1: State, first: int, rest: seq<int>, t: State)
    requires Nested(k, s, e, s1, first, rest, t)
    ensures |t.closed| == |s.closed| + |[first] + rest| && Casualty(k, s, e, [first] + rest, 0, t)
  {
    hide Structure, Names;
    var nested := Drop(s1, first, false);
    assert t.closed[|s.closed|] == nested.closed[|s.closed|];
    assert Distributed(s, e, [first] + rest)[..1] == [e];
  }

  lemma NestedCasualty(k: Context, s: State, e: Entry, s1: State, first: int, rest: seq<int>, t: State, i: nat)
    requires Nested(k, s, e, s1, first, rest, t) && i <= |rest|
    ensures var removed := [first] + rest;
            && Registered(s, removed[i]) && removed[i] in s.links && |t.closed| == |s.closed| + |removed|
            && Casualty(k, s, e, removed, i, t)
  {
    hide Round, Cascade, Casualty, Distributed, Drop;
    assert s.links.Keys == s.clients.Keys;
    hide Nested, Structure;
    if i == 0 {
      FirstCasualty(k, s, e, s1, first, rest, t);
    } else {
      LaterCasualty(k, s, e, s1, first, rest, t, i - 1);
    }
  }

  lemma LaterCasualty(k: Context, s: State, e: Entry, s1: State, first: int, rest: seq<int>, t: State, i: nat)
    requires Nested(k, s, e, s1, first, rest, t) && i < |rest|
    ensures var removed := [first] + rest;
            && Registered(s, removed[i + 1]) && |t.closed| == |s.closed| + |removed|
            && Casualty(k, s, e, removed, i + 1, t)
  {
    hide Structure, Fed, Elements, Names;
    var nested, farewell := Drop(s1, first, false), Disconnected(s.clients[first].username);
    var fd := rest[i];
    NestedRemoved(k, s, e, s1, first, rest, t);
    NestedEntries(k, s, e, s1, first, rest);
    assert ([first] + rest)[i + 1] == fd && Registered(nested, fd);
    assert Casualty(k, nested, farewell, rest, i, t);
    var c := t.closed[|nested.closed| + i];
    assert c == t.closed[|s.closed| + (i + 1)];
    FedConcat(k, s.links[fd], s1.links[fd], c.link, [e], Distributed(nested, farewell, rest)[..i + 1]);
  }

  // ------------------------------------------------------------ who is removed

  // What it costs to tell one client that all these have left.
  function FarewellCost(clients: map<int, ClientInfo>, fds: seq<int>): nat {
    CostAll(Farewells(clients, fds))
  }

  lemma FarewellsConcat(clients: map<int, ClientInfo>, a: seq<int>, b: seq<int>)
    ensures Farewells(clients, a + b) == Farewells(clients, a) + Farewells(clients, b)
    ensures FarewellCost(clients, a + b) == FarewellCost(clients, a) + FarewellCost(clients, b)
  {
    assert Farewells(clients, a + b) == Farewells(clients, a) + Farewells(clients, b);
    CostAllConcat(Farewells(clients, a), Farewells(clients, b));
  }

  // The clients of b that are not in a, and what they add.
  lemma {:induction false} Complement(clients: map<int, ClientInfo>, a: seq<int>, b: seq<int>) returns (c: seq<int>)
    requires NoDuplicates(a) && NoDuplicates(b) && Elements(a) <= Elements(b)
    ensures NoDuplicates(c) && Elements(c) == Elements(b) - Elements(a)
    ensures FarewellCost(clients, b) == FarewellCost(clients, a) + FarewellCost(clients, c)
    ensures multiset(Farewells(clients, b)) == multiset(Farewells(clients, a)) + multiset(Farewells(clients, c))
    decreases |a|
  {
    if a == [] {
      c := b;
      assert Farewells(clients, a) == [];
    } else {
      assert a[0] in Elements(a);
      var i :| 0 <= i < |b| && b[i] == a[0];
      WithoutOne(clients, a, 0);
      WithoutOne(clients, b, i);
      assert a[..0] + a[1..] == a[1..];
      c := Complement(clients, a[1..], b[..i] + b[i + 1..]);
    }
  }

  lemma NoElements(fds: seq<int>)
    ensures Elements(fds) == {} ==> fds == []
  {
    if fds != [] {
      assert fds[0] in Elements(fds);
    }
  }

  lemma WithoutOne(clients: map<int, ClientInfo>, b: seq<int>, i: nat)
    requires NoDuplicates(b) && i < |b|
    ensures var b' := b[..i] + b[i + 1..];
            && NoDuplicates(b') && Elements(b') == Elements(b) - {b[i]}
            && FarewellCost(clients, b) == FarewellCost(clients, [b[i]]) + FarewellCost(clients, b')
            && multiset(Farewells(clients, b)) == multiset(Farewells(clients, [b[i]])) + multiset(Farewells(clients, b'))
  {
    ElementsWithoutOne(b, i);
    var before, here, after := b[..i], [b[i]], b[i + 1..];
    assert b == before + (here + after);
    FarewellsConcat(clients, before, here + after);
    FarewellsConcat(clients, here, after);
    FarewellsConcat(clients, before, after);
  }

  lemma ElementsWithoutOne(b: seq<int>, i: nat)
    requires NoDuplicates(b) && i < |b|
    ensures var b' := b[..i] + b[i + 1..];
            NoDuplicates(b') && Elements(b') == Elements(b) - {b[i]}
  {
    var b' := b[..i] + b[i + 1..];
    forall fd ensures fd in Elements(b') <==> fd in Elements(b) && fd != b[i] {
      if fd in Elements(b) && fd != b[i] {
        var j :| 0 <= j < |b| && b[j] == fd;
        assert b'[if j < i then j else j - 1] == fd;
      }
      if fd in Elements(b') {
        var j :| 0 <= j < |b'| && b'[j] == fd;
        assert b[if j < i then j else j + 1] == fd;
      }
    }
  }

  lemma DistributedCost(s: State, e: Entry, removed: seq<int>, i: nat)
    requires i <= |removed|
    ensures CostAll(Distributed(s, e, removed)[..i + 1]) == Cost(e) + FarewellCost(s.clients, removed[..i])
  {
    assert Distributed(s, e, removed)[..i + 1] == [e] + Farewells(s.clients, removed[..i]);
  }

  // A set of registered clients that no cascade of e can stop short of: whoever cannot be told
  // about e and about all of them leaving is one of them.
  ghost predicate Fatal(s: State, e: Entry, fds: seq<int>)
    requires s.links.Keys == s.clients.Keys
  {
    && NoDuplicates(fds)
    && forall fd :: Registered(s, fd) && s.links[fd].budget < Cost(e) + FarewellCost(s.clients, fds) ==> fd in fds
  }

  /**
   The clients that a broadcast removes are the least fatal set: an outcome that mentions no
   order, although the recursion visits the clients in an arbitrary one.
   */
  lemma RemovedIsLeastFatal(k: Context, s: State, e: Entry, removed: seq<int>, t: State, fds: seq<int>)
    requires Structure(s) && Cascade(k, s, e, removed, t)
    ensures Fatal(s, e, removed)
    ensures Fatal(s, e, fds) ==> Elements(removed) <= Elements(fds)
  {
    forall fd | Registered(s, fd) && fd !in removed
      ensures s.links[fd].budget >= Cost(e) + FarewellCost(s.clients, removed)
    {
      assert fd in t.clients;
      SurvivorsPaid(k, s, e, removed, t, fd);
    }
    if Fatal(s, e, fds) {
      RemovedWithin(k, s, e, removed, t, fds, |removed|);
    }
  }

  // A removed client could not be told about those removed before it.
  lemma CasualtyCost(k: Context, s: State, e: Entry, removed: seq<int>, t: State, n: nat)
    requires Structure(s) && Cascade(k, s, e, removed, t) && n < |removed|
    ensures Registered(s, removed[n]) && removed[n] in s.links && NoDuplicates(removed[..n])
    ensures s.links[removed[n]].budget < Cost(e) + FarewellCost(s.clients, removed[..n])
  {
    hide Fed, FarewellCost;
    var fd := removed[n];
    assert Registered(s, fd) && fd in s.links && s.links[fd].Valid();
    hide Structure;
    assert Casualty(k, s, e, removed, n, t);
    FedExactly(k, s.links[fd], t.closed[|s.closed| + n].link, Distributed(s, e, removed)[..n + 1]);
    DistributedCost(s, e, removed, n);
  }

  lemma FatalTakes(s: State, e: Entry, fds: seq<int>, before: seq<int>, fd: int)
    requires s.links.Keys == s.clients.Keys && Fatal(s, e, fds)
    requires NoDuplicates(before) && Elements(before) <= Elements(fds)
    requires Registered(s, fd) && s.links[fd].budget < Cost(e) + FarewellCost(s.clients, before)
    ensures fd in Elements(fds)
  {
    hide FarewellCost, Cost;
    var _ := Complement(s.clients, before, fds);
  }

  lemma {:induction false} RemovedWithin(k: Context, s: State, e: Entry, removed: seq<int>, t: State, fds: seq<int>, n: nat)
    requires Structure(s) && Cascade(k, s, e, removed, t) && Fatal(s, e, fds) && n <= |removed|
    ensures Elements(removed[..n]) <= Elements(fds)
    decreases n
  {
    hide Cascade, Fatal, FarewellCost, Cost;
    assert s.links.Keys == s.clients.Keys;
    hide Structure;
    if n != 0 {
      RemovedWithin(k, s, e, removed, t, fds, n - 1);
      CasualtyCost(k, s, e, removed, t, n - 1);
      FatalTakes(s, e, fds, removed[..n - 1], removed[n - 1]);
      assert removed[..n] == removed[..n - 1] + [removed[n - 1]];
    }
  }

  // Every link that is left has paid for exactly what was distributed.
  lemma SurvivorsPaid(k: Context, s: State, e: Entry, removed: seq<int>, t: State, fd: int)
    requires Structure(s) && Cascade(k, s, e, removed, t) && Registered(s, fd) && fd in t.clients
    ensures !s.links[fd].failed
    ensures t.links[fd].budget == s.links[fd].budget - Cost(e) - FarewellCost(s.clients, removed)
  {
    FedExactly(k, s.links[fd], t.links[fd], Distributed(s, e, removed));
    DistributedCost(s, e, removed, |removed|);
    assert removed[..|removed|] == removed;
    assert Distributed(s, e, removed)[..|removed| + 1] == Distributed(s, e, removed);
  }

  lemma SameFarewells(clients: map<int, ClientInfo>, a: seq<int>, b: seq<int>)
    requires NoDuplicates(a) && NoDuplicates(b) && Elements(a) == Elements(b)
    ensures |a| == |b|
    ensures FarewellCost(clients, a) == FarewellCost(clients, b)
    ensures multiset(Farewells(clients, a)) == multiset(Farewells(clients, b))
  {
    var c := Complement(clients, a, b);
    NoElements(c);
    assert Farewells(clients, []) == [];
    assert |multiset(Farewells(clients, a))| == |a| && |multiset(Farewells(clients, b))| == |b|;
  }

  // Two broadcasts from the same state, each with its own iteration orders and nonces, leave the
  // same tables, the same capacity on every link and the same notices, up to their order.
  lemma CascadeIsOrderIndependent(
    k: Context, s: State, e: Entry, removed1: seq<int>, t1: State, removed2: seq<int>, t2: State)
    requires Structure(s) && Cascade(k, s, e, removed1, t1) && Cascade(k, s, e, removed2, t2)
    ensures Elements(removed1) == Elements(removed2) && |removed1| == |removed2|
    ensures t1.clients == t2.clients && t1.usernames == t2.usernames
    ensures forall fd :: fd in t1.clients ==> t1.links[fd].budget == t2.links[fd].budget
    ensures multiset(t1.log) == multiset(t2.log)
  {
    hide Structure, Fed, Casualty, Registered, FarewellCost, Cost;
    RemovedIsLeastFatal(k, s, e, removed1, t1, removed2);
    RemovedIsLeastFatal(k, s, e, removed2, t2, removed1);
    SameFarewells(s.clients, removed1, removed2);
    assert t1.log == (s.log + [e]) + Farewells(s.clients, removed1);
    assert t2.log == (s.log + [e]) + Farewells(s.clients, removed2);
    forall fd | fd in t1.clients ensures t1.links[fd].budget == t2.links[fd].budget {
      SameCapacity(k, s, e, removed1, t1, removed2, t2, fd);
    }
  }

  lemma SameCapacity(
    k: Context, s: State, e: Entry, removed1: seq<int>, t1: State, removed2: seq<int>, t2: State, fd: int)
    requires Structure(s) && Cascade(k, s, e, removed1, t1) && Cascade(k, s, e, removed2, t2)
    requires Elements(removed1) == Elements(removed2) && fd in t1.clients
    ensures t1.links[fd].budget == t2.links[fd].budget
  {
    hide Structure;
    if Registered(s, fd) {
      SameFarewells(s.clients, removed1, removed2);
      SurvivorsPaid(k, s, e, removed1, t1, fd);
      SurvivorsPaid(k, s, e, removed2, t2, fd);
    }
  }

  // When every registered link either has already failed or can take the whole cascade, exactly
  // the failed ones are removed.
  lemma ExactlyTheBrokenAreRemoved(k: Context, s: State, e: Entry, removed: seq<int>, t: State, broken: seq<int>)
    requires Structure(s) && Cascade(k, s, e, removed, t) && NoDuplicates(broken)
    requires forall fd :: fd in Elements(broken) <==> Registered(s, fd) && s.links[fd].failed
    requires forall fd :: Registered(s, fd) && !s.links[fd].failed ==>
               s.links[fd].budget >= Cost(e) + FarewellCost(s.clients, broken)
    ensures Elements(removed) == Elements(broken)
    ensures t.clients == s.clients - Elements(broken)
    ensures |t.log| == |s.log| + 1 + |broken|
  {
    RemovedIsLeastFatal(k, s, e, removed, t, broken);
    forall fd | Registered(s, fd) && fd !in removed ensures !s.links[fd].failed {
      assert fd in t.clients;
      SurvivorsPaid(k, s, e, removed, t, fd);
    }
    assert Elements(broken) <= Elements(removed) by {
      assert forall fd :: fd in Elements(broken) ==> fd in removed;
    }
    assert Elements(removed) == Elements(broken);
    SameFarewells(s.clients, removed, broken);
  }

  // What each client that is left sees of a broadcast: the message, once and first, then one
  // farewell for every removed client, in the one order of their removal.
  lemma SurvivorsSeeTheSame(k: Context, s: State, e: Entry, removed: seq<int>, t: State, fd: int)
    requires Structure(s) && Cascade(k, s, e, removed, t) && Registered(t, fd) && !e.Forward?
    ensures s.links[fd].sent <= t.links[fd].sent
    ensures var seen := t.links[fd].sent[|s.links[fd].sent|..];
            && |seen| == 1 + |removed|
            && k.Open(seen[0]) == Some(Notice(e))
            && forall i :: 0 <= i < |removed| ==>
                 k.Open(seen[i + 1]) == Some(s.clients[removed[i]].username + HAS_DISCONNECTED)
  {
    hide Casualty, NoDuplicates;
    var es := Distributed(s, e, removed);
    assert Registered(s, fd) && s.links[fd].Valid();
    hide Structure;
    FedExactly(k, s.links[fd], t.links[fd], es);
    var ps :| CarryAll(k, ps, es) && t.links[fd] == s.links[fd].SendAll(ps);
    SendAllExactly(s.links[fd], ps);
    assert ps[..|ps|] == ps;
    assert t.links[fd].sent[|s.links[fd].sent|..] == ps;
    assert Carries(k, ps[0], es[0]);
    forall i | 0 <= i < |removed|
      ensures k.Open(ps[i + 1]) == Some(s.clients[removed[i]].username + HAS_DISCONNECTED)
    {
      assert Registered(s, removed[i]) && Carries(k, ps[i + 1], es[i + 1]);
    }
  }
}
