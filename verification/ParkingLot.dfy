/** The parking lot: callers waiting for the result of a request somebody else is executing. */
module ParkingLots {
  /** The ticket is the serial number of the successful park call; it stands for its callback. */
  datatype Waiter = Waiter(id: nat, timeoutAt: nat, ticket: nat)

  datatype Firing = Firing(ticket: nat, code: int, body: string, timedOut: bool)

  /** How a waiter left the lot. */
  datatype Fate = Woken | TimedOut | Cancelled | Cleared

  type Lists = map<string, seq<Waiter>>

  const TIMEOUT_BODY :=
    "{\"error\":{\"code\":\"ERR_GATEWAY_TIMEOUT\",\"message\":\"Upstream execution timed out while parked\"}}"

  predicate IsDue(w: Waiter, now: nat) { w.timeoutAt > 0 && now >= w.timeoutAt }

  /** A list in parking order, without two waiters of the same id. */
  predicate Orderly(list: seq<Waiter>) {
    forall i, j :: 0 <= i < j < |list| ==> list[i].ticket < list[j].ticket && list[i].id != list[j].id
  }

  predicate OneTicketEach(list: seq<Waiter>) {
    forall i, j :: 0 <= i < j < |list| ==> list[i].ticket != list[j].ticket
  }

  ghost function Tickets(list: seq<Waiter>): set<nat> {
    set i | 0 <= i < |list| :: list[i].ticket
  }

  function Fire(list: seq<Waiter>, code: int, body: string, timedOut: bool): (f: seq<Firing>)
    ensures |f| == |list| && forall i :: 0 <= i < |f| ==> f[i] == Firing(list[i].ticket, code, body, timedOut)
  {
    seq(|list|, i requires 0 <= i < |list| => Firing(list[i].ticket, code, body, timedOut))
  }

  /** The waiters of a list that are due, and the others, each in the order of the list. */
  function Due(list: seq<Waiter>, now: nat): seq<Waiter> {
    if list == [] then []
    else Due(list[..|list| - 1], now) + if IsDue(list[|list| - 1], now) then [list[|list| - 1]] else []
  }

  function Waiting(list: seq<Waiter>, now: nat): seq<Waiter> {
    if list == [] then []
    else Waiting(list[..|list| - 1], now) + if IsDue(list[|list| - 1], now) then [] else [list[|list| - 1]]
  }

  /** A waiter is due from its time on; one without a time never is. */
  lemma {:induction false} DueExactly(list: seq<Waiter>, now: nat)
    ensures forall w :: w in Due(list, now) <==> w in list && 0 < w.timeoutAt <= now
    ensures forall w :: w in Waiting(list, now) <==> w in list && (w.timeoutAt == 0 || now < w.timeoutAt)
  {
    if list != [] {
      var front, last := list[..|list| - 1], list[|list| - 1];
      DueExactly(front, now);
      assert list == front + [last];
    }
  }

  // ----- the invariants -----

  /** Lists are nonempty and orderly, and hold exactly the tickets at home under their key. */
  ghost predicate ListsMatch(lists: Lists, home: map<nat, string>) {
    && (forall k :: k in lists ==> k != "" && lists[k] != [] && Orderly(lists[k]))
    && (forall k, t :: k in lists && t in Tickets(lists[k]) ==> t in home && home[t] == k)
    && (forall t :: t in home ==> home[t] in lists && t in Tickets(lists[home[t]]))
  }

  /** Every ticket given out is either waiting or has exactly one fate. */
  ghost predicate Accounted(home: map<nat, string>, fates: map<nat, Fate>, parked: nat) {
    && home.Keys !! fates.Keys
    && forall t: nat :: t < parked <==> t in home || t in fates
  }

  /** Each callback is made at most once, exactly for the woken and the timed out. */
  ghost predicate FiredOnce(fired: seq<Firing>, fates: map<nat, Fate>) {
    && (forall i, j :: 0 <= i < j < |fired| ==> fired[i].ticket != fired[j].ticket)
    && (forall i :: 0 <= i < |fired| ==>
          fired[i].ticket in fates && fates[fired[i].ticket] == if fired[i].timedOut then TimedOut else Woken)
    && (forall t :: t in fates && (fates[t].Woken? || fates[t].TimedOut?) ==> Fired(fired, t))
  }

  ghost predicate Fired(fired: seq<Firing>, t: nat) {
    exists i :: 0 <= i < |fired| && fired[i].ticket == t
  }

  ghost function Settle(fates: map<nat, Fate>, tickets: set<nat>, fate: Fate): map<nat, Fate> {
    fates + map t | t in tickets :: fate
  }

  /** A fate once met is never changed. */
  ghost predicate Final(before: map<nat, Fate>, after: map<nat, Fate>) {
    forall t :: t in before ==> t in after && after[t] == before[t]
  }

  // ----- how the steps keep them -----

  /** A waiter joins at the end of a list. */
  lemma Joined(list: seq<Waiter>, w: Waiter)
    requires Orderly(list) && forall v :: v in list ==> v.ticket < w.ticket && v.id != w.id
    ensures Orderly(list + [w]) && Tickets(list + [w]) == Tickets(list) + {w.ticket} && w.ticket !in Tickets(list)
  {
    var list' := list + [w];
    assert forall i :: 0 <= i < |list| ==> list[i] in list && list'[i] == list[i];
    assert list'[|list|] == w;
    forall t | t in Tickets(list) ensures t in Tickets(list') {
      var i :| 0 <= i < |list| && list[i].ticket == t;
      assert list'[i].ticket == t;
    }
  }

  lemma AtHome(lists: Lists, home: map<nat, string>, key: string, w: Waiter)
    requires ListsMatch(lists, home) && key in lists && w in lists[key]
    ensures w.ticket in home && home[w.ticket] == key
  {
    assert w.ticket in Tickets(lists[key]);
  }

  lemma ParkKeeps(lists: Lists, home: map<nat, string>, key: string, w: Waiter)
    requires ListsMatch(lists, home) && key != "" && forall t :: t in home ==> t < w.ticket
    requires key in lists ==> forall v :: v in lists[key] ==> v.id != w.id
    ensures ListsMatch(lists[key := (if key in lists then lists[key] else []) + [w]], home[w.ticket := key])
  {
    hide Tickets, Orderly;
    NoTickets();
    var list := if key in lists then lists[key] else [];
    forall v | v in list ensures v.ticket < w.ticket && v.id != w.id {
      AtHome(lists, home, key, v);
    }
    Joined(list, w);
    var lists', home' := lists[key := list + [w]], home[w.ticket := key];
    forall k, t | k in lists' && t in Tickets(lists'[k]) ensures t in home' && home'[t] == k {
      if k == key {
        if t != w.ticket {
          assert t in Tickets(list);
          assert key in lists && lists[key] == list;
          assert t in home && home[t] == key;
        }
      } else {
        assert k in lists && t in Tickets(lists[k]);
        assert t in home && t != w.ticket;
      }
    }
    forall t | t in home' ensures home'[t] in lists' && t in Tickets(lists'[home'[t]]) {
      if t != w.ticket { assert home[t] in lists && t in Tickets(lists[home[t]]); }
    }
  }

  /** A list loses some waiters; a list left empty goes. */
  function Shrink(lists: Lists, key: string, left: seq<Waiter>): Lists {
    if left == [] then lists - {key} else lists[key := left]
  }

  lemma ShrinkKeeps(lists: Lists, home: map<nat, string>, key: string, left: seq<Waiter>, gone: set<nat>)
    requires ListsMatch(lists, home) && key in lists && Orderly(left)
    requires Tickets(left) !! gone && Tickets(lists[key]) == Tickets(left) + gone
    ensures ListsMatch(Shrink(lists, key, left), home - gone)
    ensures gone <= home.Keys && forall t :: t in gone ==> home[t] == key
  {
    hide Tickets, Orderly;
    NoTickets();
    forall t | t in gone ensures t in home && home[t] == key { assert t in Tickets(lists[key]); }
    var lists', home' := Shrink(lists, key, left), home - gone;
    forall k, t | k in lists' && t in Tickets(lists'[k]) ensures t in home' && home'[t] == k {
      assert k in lists && t in Tickets(lists[k]) && (k == key ==> t in Tickets(left));
      assert t in home && home[t] == k;
    }
    forall t | t in home' ensures home'[t] in lists' && t in Tickets(lists'[home'[t]]) {
      assert t in home && t !in gone && home[t] in lists && t in Tickets(lists[home[t]]);
      if home[t] == key {
        assert t in Tickets(left);
        assert left != [] && lists'[key] == left;
      } else {
        assert lists'[home[t]] == lists[home[t]];
      }
    }
  }

  lemma SettleKeeps(home: map<nat, string>, fates: map<nat, Fate>, parked: nat, gone: set<nat>, fate: Fate)
    requires Accounted(home, fates, parked) && gone <= home.Keys
    ensures Accounted(home - gone, Settle(fates, gone, fate), parked) && Final(fates, Settle(fates, gone, fate))
  {
  }

  lemma QuietKeeps(fired: seq<Firing>, fates: map<nat, Fate>, gone: set<nat>, fate: Fate)
    requires FiredOnce(fired, fates) && gone !! fates.Keys && (fate.Cancelled? || fate.Cleared?)
    ensures FiredOnce(fired, Settle(fates, gone, fate))
  {
  }

  lemma InTickets(list: seq<Waiter>, t: nat)
    ensures t in Tickets(list) <==> exists i :: 0 <= i < |list| && list[i].ticket == t
  {
  }

  lemma SettleAt(fates: map<nat, Fate>, tickets: set<nat>, fate: Fate, t: nat)
    ensures t in tickets ==> t in Settle(fates, tickets, fate) && Settle(fates, tickets, fate)[t] == fate
    ensures t !in tickets ==> (t in Settle(fates, tickets, fate) <==> t in fates)
    ensures t !in tickets && t in fates ==> Settle(fates, tickets, fate)[t] == fates[t]
  {
  }

  lemma FireKeeps(fired: seq<Firing>, fates: map<nat, Fate>, list: seq<Waiter>, code: int, body: string, timedOut: bool)
    requires FiredOnce(fired, fates) && OneTicketEach(list) && Tickets(list) !! fates.Keys
    ensures FiredOnce(fired + Fire(list, code, body, timedOut),
                      Settle(fates, Tickets(list), if timedOut then TimedOut else Woken))
  {
    hide Tickets, Settle, Fired;
    var fate: Fate := if timedOut then TimedOut else Woken;
    var more, fates' := Fire(list, code, body, timedOut), Settle(fates, Tickets(list), fate);
    var all := fired + more;
    forall i | 0 <= i < |all|
      ensures i < |fired| ==> all[i].ticket in fates && all[i].ticket !in Tickets(list)
      ensures i >= |fired| ==> all[i].ticket in Tickets(list)
      ensures all[i].ticket in fates' && fates'[all[i].ticket] == if all[i].timedOut then TimedOut else Woken
    {
      SettleAt(fates, Tickets(list), fate, all[i].ticket);
      if i >= |fired| {
        assert all[i] == more[i - |fired|] && list[i - |fired|].ticket == all[i].ticket;
        InTickets(list, all[i].ticket);
      }
    }
    forall t | t in fates' && (fates'[t].Woken? || fates'[t].TimedOut?) ensures Fired(all, t) {
      SettleAt(fates, Tickets(list), fate, t);
      if t in Tickets(list) {
        InTickets(list, t);
        FiredLater(fired, more, t);
      } else {
        FiredStill(fired, more, t);
      }
    }
  }

  lemma FiredLater(fired: seq<Firing>, more: seq<Firing>, t: nat)
    requires exists i :: 0 <= i < |more| && more[i].ticket == t
    ensures Fired(fired + more, t)
  {
    var i :| 0 <= i < |more| && more[i].ticket == t;
    assert (fired + more)[|fired| + i].ticket == t;
  }

  lemma FiredStill(fired: seq<Firing>, more: seq<Firing>, t: nat)
    requires Fired(fired, t)
    ensures Fired(fired + more, t)
  {
    var i :| 0 <= i < |fired| && fired[i].ticket == t;
    assert (fired + more)[i].ticket == t;
  }

  lemma {:induction false} Split(list: seq<Waiter>, now: nat)
    requires Orderly(list)
    ensures Orderly(Due(list, now)) && Orderly(Waiting(list, now))
    ensures forall w :: w in Due(list, now) || w in Waiting(list, now) ==> w in list
    ensures Tickets(Due(list, now)) !! Tickets(Waiting(list, now))
    ensures Tickets(Due(list, now)) + Tickets(Waiting(list, now)) == Tickets(list)
    ensures |Due(list, now)| + |Waiting(list, now)| == |list|
  {
    hide Tickets, Orderly;
    if list == [] {
      NoTickets();
    } else {
      var n := |list| - 1;
      var front, last := list[..n], list[n];
      assert list == front + [last];
      FrontOrderly(list);
      Split(front, now);
      Joined(front, last);
      if IsDue(last, now) {
        Joined(Due(front, now), last);
        assert Due(list, now) == Due(front, now) + [last] && Waiting(list, now) == Waiting(front, now);
      } else {
        Joined(Waiting(front, now), last);
        assert Due(list, now) == Due(front, now) && Waiting(list, now) == Waiting(front, now) + [last];
      }
    }
  }

  lemma NoTickets()
    ensures Tickets([]) == {} && Orderly([])
  {
  }

  lemma FrontOrderly(list: seq<Waiter>)
    requires Orderly(list) && list != []
    ensures Orderly(list[..|list| - 1])
    ensures forall v :: v in list[..|list| - 1] ==> v.ticket < list[|list| - 1].ticket && v.id != list[|list| - 1].id
  {
  }

  class ParkingLot {
    var waiters: Lists
    /** How many park calls succeeded, and every callback made so far, in order. */
    var parked: nat
    var fired: seq<Firing>
    /** Where each waiting ticket is, and what became of each of the others. */
    ghost var home: map<nat, string>
    ghost var fates: map<nat, Fate>

    ghost predicate Valid()
      reads this
    {
      ListsMatch(waiters, home) && Accounted(home, fates, parked) && FiredOnce(fired, fates)
    }

    constructor ()
      ensures Valid() && waiters == map[] && parked == 0 && fired == [] && fates == map[]
    {
      waiters, parked, fired, home, fates := map[], 0, [], map[], map[];
    }

    /** Refused without a key, an id or a callback, or when the id already waits under the key. */
    method Park(key: string, id: nat, timeoutAt: nat, hasCallback: bool) returns (accepted: bool)
      requires Valid()
      modifies this
      ensures Valid() && fired == old(fired) && fates == old(fates)
      ensures accepted <==> key != "" && id != 0 && hasCallback
                            && (key in old(waiters) ==> forall w :: w in old(waiters)[key] ==> w.id != id)
      ensures accepted ==>
                && parked == old(parked) + 1
                && waiters == old(waiters)[key := (if key in old(waiters) then old(waiters)[key] else [])
                                                  + [Waiter(id, timeoutAt, old(parked))]]
      ensures !accepted ==> waiters == old(waiters) && parked == old(parked)
    {
      hide ListsMatch, FiredOnce;
      if key == "" || id == 0 || !hasCallback { return false; }
      var list := if key in waiters then waiters[key] else [];
      for i := 0 to |list|
        invariant forall j :: 0 <= j < i ==> list[j].id != id
      {
        if list[i].id == id { return false; }
      }
      ParkKeeps(waiters, home, key, Waiter(id, timeoutAt, parked));
      home := home[parked := key];
      waiters := waiters[key := list + [Waiter(id, timeoutAt, parked)]];
      parked := parked + 1;
      accepted := true;
    }

    /** Wakes everybody waiting under the key, in parking order, and only them. */
    method BroadcastAndUnpark(key: string, code: int, body: string) returns (count: nat)
      requires Valid()
      modifies this
      ensures Valid() && parked == old(parked) && waiters == old(waiters) - {key}
      ensures var list := if key in old(waiters) then old(waiters)[key] else [];
              && count == |list| && fired == old(fired) + Fire(list, code, body, false)
              && fates == Settle(old(fates), Tickets(list), Woken)
      ensures Final(old(fates), fates)
    {
      hide ListsMatch, FiredOnce;
      if key !in waiters {
        assert fired + Fire([], code, body, false) == fired;
        assert Settle(fates, Tickets([]), Woken) == fates;
        return 0;
      }
      var toWake := waiters[key];
      ghost var gone := Tickets(toWake);
      ListOrderly(waiters, home, key);
      NoTickets();
      ShrinkKeeps(waiters, home, key, [], gone);
      SettleKeeps(home, fates, parked, gone, Woken);
      FireKeeps(fired, fates, toWake, code, body, false);
      waiters := waiters - {key};
      fired := fired + Fire(toWake, code, body, false);
      home, fates := home - gone, Settle(fates, gone, Woken);
      count := |toWake|;
    }

    /** Takes one waiter out without calling it back. */
    method Cancel(key: string, id: nat) returns (found: bool)
      requires Valid()
      modifies this
      ensures Valid() && parked == old(parked) && fired == old(fired)
      ensures found <==> key in old(waiters) && exists w :: w in old(waiters)[key] && w.id == id
      ensures found ==> exists i ::
                && 0 <= i < |old(waiters)[key]| && old(waiters)[key][i].id == id
                && waiters == Shrink(old(waiters), key, old(waiters)[key][..i] + old(waiters)[key][i + 1..])
                && fates == Settle(old(fates), {old(waiters)[key][i].ticket}, Cancelled)
      ensures !found ==> waiters == old(waiters) && fates == old(fates)
      ensures Final(old(fates), fates)
    {
      hide ListsMatch, FiredOnce;
      if key !in waiters { return false; }
      var list := waiters[key];
      for i := 0 to |list|
        invariant forall j :: 0 <= j < i ==> list[j].id != id
      {
        if list[i].id == id {
          ghost var gone := {list[i].ticket};
          var left := list[..i] + list[i + 1..];
          ListOrderly(waiters, home, key);
          WithoutOne(list, i);
          ShrinkKeeps(waiters, home, key, left, gone);
          SettleKeeps(home, fates, parked, gone, Cancelled);
          QuietKeeps(fired, fates, gone, Cancelled);
          waiters := if left == [] then waiters - {key} else waiters[key := left];
          home, fates := home - gone, Settle(fates, gone, Cancelled);
          return true;
        }
      }
      return false;
    }

    /** Forgets everybody without calling them back. */
    method Clear()
      requires Valid()
      modifies this
      ensures Valid() && waiters == map[] && fired == old(fired) && parked == old(parked)
      ensures fates == Settle(old(fates), old(home).Keys, Cleared) && Final(old(fates), fates)
    {
      hide FiredOnce;
      SettleKeeps(home, fates, parked, home.Keys, Cleared);
      QuietKeeps(fired, fates, home.Keys, Cleared);
      fates := Settle(fates, home.Keys, Cleared);
      home := home - home.Keys;
      waiters := map[];
    }

    /** Takes out and calls back everybody who is due, within each key in parking order; the others
        stay, in their order. */
    method PurgeTimeout(now: nat) returns (count: nat, ghost timedOut: seq<Waiter>)
      requires Valid()
      modifies this
      ensures Valid() && parked == old(parked) && count == |timedOut|
      ensures waiters
              == map k | k in old(waiters) && Waiting(old(waiters)[k], now) != [] :: Waiting(old(waiters)[k], now)
      ensures fired == old(fired) + Fire(timedOut, 504, TIMEOUT_BODY, true)
      ensures fates == Settle(old(fates), Tickets(timedOut), TimedOut)
      ensures Tickets(timedOut) == DueTickets(old(waiters), old(waiters).Keys, now)
      ensures OneTicketEach(timedOut) && ParkingOrder(timedOut, old(home)) && Final(old(fates), fates)
    {
      hide ListsMatch, FiredOnce, Orderly, Tickets, OneTicketEach, ParkingOrder, DueTickets;
      var due := TakeDue(now);
      SettleKeeps(old(home), fates, parked, Tickets(due), TimedOut);
      FireKeeps(fired, fates, due, 504, TIMEOUT_BODY, true);
      fired := fired + Fire(due, 504, TIMEOUT_BODY, true);
      fates := Settle(fates, Tickets(due), TimedOut);
      count, timedOut := |due|, due;
    }

    method TakeDue(now: nat) returns (timedOut: seq<Waiter>)
      requires ListsMatch(waiters, home)
      modifies `waiters, `home
      ensures ListsMatch(waiters, home)
      ensures waiters
              == map k | k in old(waiters) && Waiting(old(waiters)[k], now) != [] :: Waiting(old(waiters)[k], now)
      ensures Tickets(timedOut) <= old(home).Keys && home == old(home) - Tickets(timedOut)
      ensures Tickets(timedOut) == DueTickets(old(waiters), old(waiters).Keys, now)
      ensures OneTicketEach(timedOut) && ParkingOrder(timedOut, old(home))
    {
      hide ListsMatch, Orderly, Tickets, OneTicketEach, ParkingOrder, DueTickets, Due, Waiting;
      timedOut := [];
      var todo, done: set<string> := waiters.Keys, {};
      NothingDue(waiters, home, now);
      while todo != {}
        invariant todo !! done && todo + done == old(waiters).Keys
        invariant todo <= waiters.Keys <= old(waiters).Keys && ListsMatch(waiters, home)
        invariant forall k :: k in todo ==> waiters[k] == old(waiters)[k]
        invariant forall k :: k in done ==>
                    (k in waiters <==> Waiting(old(waiters)[k], now) != [])
                    && (k in waiters ==> waiters[k] == Waiting(old(waiters)[k], now))
        invariant Tickets(timedOut) <= old(home).Keys && home == old(home) - Tickets(timedOut)
        invariant OneTicketEach(timedOut) && ParkingOrder(timedOut, old(home))
        invariant forall t :: t in Tickets(timedOut) ==> old(home)[t] in done
        invariant Tickets(timedOut) == DueTickets(old(waiters), done, now)
        decreases todo
      {
        var key :| key in todo;
        var due, left := SplitList(waiters[key], now);
        ListOrderly(waiters, home, key);
        Split(waiters[key], now);
        ghost var gone := Tickets(due);
        ShrinkKeeps(waiters, home, key, left, gone);
        OrderExtends(timedOut, due, old(home), key);
        DueOfOneMore(old(waiters), done, key, now);
        waiters := if left == [] then waiters - {key} else waiters[key := left];
        timedOut := timedOut + due;
        home := home - gone;
        todo, done := todo - {key}, done + {key};
      }
      assert done == old(waiters).Keys;
    }

    method SplitList(list: seq<Waiter>, now: nat) returns (due: seq<Waiter>, left: seq<Waiter>)
      ensures due == Due(list, now) && left == Waiting(list, now)
    {
      due, left := [], [];
      for i := 0 to |list|
        invariant due == Due(list[..i], now) && left == Waiting(list[..i], now)
      {
        assert list[..i + 1][..i] == list[..i];
        if IsDue(list[i], now) {
          due := due + [list[i]];
        } else {
          left := left + [list[i]];
        }
      }
      assert list[..|list|] == list;
    }

    method WaiterCount(key: string) returns (count: nat)
      requires Valid()
      ensures count == |HomeTo(home, {key})|
    {
      hide FiredOnce, Orderly, Tickets;
      if key !in waiters {
        assert HomeTo(home, {key}) == {};
        return 0;
      }
      AllOf(waiters, home, key);
      return |waiters[key]|;
    }

    /** Those waiting are exactly the tickets given out that have no fate yet. */
    method TotalWaiters() returns (total: nat)
      requires Valid()
      ensures total + |fates| == parked
    {
      hide ListsMatch, FiredOnce, Orderly, Tickets, HomeTo;
      total := 0;
      var todo, done: set<string> := waiters.Keys, {};
      Homes(waiters, home);
      while todo != {}
        invariant todo !! done && todo + done == waiters.Keys && total == |HomeTo(home, done)|
        decreases todo
      {
        var key :| key in todo;
        AllOf(waiters, home, key);
        HomeToOneMore(home, done, key);
        total := total + |waiters[key]|;
        todo, done := todo - {key}, done + {key};
      }
      assert done == waiters.Keys;
      AllAccounted(home, fates, parked);
    }
  }

  ghost function HomeTo(home: map<nat, string>, keys: set<string>): set<nat> {
    set t | t in home && home[t] in keys
  }

  lemma HomeToOneMore(home: map<nat, string>, keys: set<string>, key: string)
    requires key !in keys
    ensures |HomeTo(home, keys + {key})| == |HomeTo(home, keys)| + |HomeTo(home, {key})|
  {
    assert HomeTo(home, keys + {key}) == HomeTo(home, keys) + HomeTo(home, {key});
    CountBoth(HomeTo(home, keys), HomeTo(home, {key}));
  }

  lemma AllAccounted(home: map<nat, string>, fates: map<nat, Fate>, parked: nat)
    requires Accounted(home, fates, parked)
    ensures |home.Keys| + |fates| == parked
  {
    Numbered(home.Keys + fates.Keys, parked);
    CountBoth(home.Keys, fates.Keys);
  }

  /** The tickets of those due under some of the keys. */
  ghost function DueTickets(lists: Lists, keys: set<string>, now: nat): set<nat> {
    set k, t | k in keys && k in lists && t in Tickets(Due(lists[k], now)) :: t
  }

  lemma DueOfOneMore(lists: Lists, keys: set<string>, key: string, now: nat)
    requires key in lists
    ensures DueTickets(lists, keys + {key}, now) == DueTickets(lists, keys, now) + Tickets(Due(lists[key], now))
  {
    hide Tickets, Due;
  }

  lemma NothingDue(lists: Lists, home: map<nat, string>, now: nat)
    ensures Tickets([]) == {} && OneTicketEach([]) && ParkingOrder([], home) && DueTickets(lists, {}, now) == {}
  {
  }

  lemma Homes(lists: Lists, home: map<nat, string>)
    requires ListsMatch(lists, home)
    ensures HomeTo(home, {}) == {} && HomeTo(home, lists.Keys) == home.Keys
  {
    hide Tickets, Orderly;
  }

  /** A list holds everybody at home under its key. */
  lemma AllOf(lists: Lists, home: map<nat, string>, key: string)
    requires ListsMatch(lists, home) && key in lists
    ensures |lists[key]| == |HomeTo(home, {key})|
  {
    hide Tickets, Orderly;
    TicketCount(lists[key]);
    assert Tickets(lists[key]) == HomeTo(home, {key});
  }

  lemma CountBoth(a: set<nat>, b: set<nat>)
    requires a !! b
    ensures |a + b| == |a| + |b|
  {
    assert (a + b) - b == a;
  }

  /** Waiters of the same key come in the order they parked. */
  ghost predicate ParkingOrder(list: seq<Waiter>, home: map<nat, string>) {
    forall i, j :: 0 <= i < j < |list| ==> InOrder(list[i].ticket, list[j].ticket, home)
  }

  ghost predicate InOrder(t: nat, u: nat, home: map<nat, string>) {
    t in home && u in home && home[t] == home[u] ==> t < u
  }

  lemma OrderExtends(list: seq<Waiter>, due: seq<Waiter>, home: map<nat, string>, key: string)
    requires OneTicketEach(list) && ParkingOrder(list, home) && Orderly(due)
    requires forall t :: t in Tickets(list) ==> t in home && home[t] != key
    requires forall t :: t in Tickets(due) ==> t in home && home[t] == key
    ensures OneTicketEach(list + due) && ParkingOrder(list + due, home)
    ensures Tickets(list + due) == Tickets(list) + Tickets(due) && Tickets(list) !! Tickets(due)
  {
    var all := list + due;
    forall i | 0 <= i < |list| ensures all[i].ticket in Tickets(list) {}
    forall j | 0 <= j < |due| ensures due[j].ticket in Tickets(due) && all[|list| + j] == due[j] {}
    forall t | t in Tickets(list) ensures t in Tickets(all) {
      var i :| 0 <= i < |list| && list[i].ticket == t;
      assert all[i].ticket == t;
    }
    forall t | t in Tickets(due) ensures t in Tickets(all) {
      var i :| 0 <= i < |due| && due[i].ticket == t;
      assert all[|list| + i].ticket == t;
    }
  }

  lemma {:induction false} TicketCount(list: seq<Waiter>)
    requires Orderly(list)
    ensures |Tickets(list)| == |list|
  {
    if list == [] {
      NoTickets();
    } else {
      var n := |list| - 1;
      FrontOrderly(list);
      Joined(list[..n], list[n]);
      assert list == list[..n] + [list[n]];
      TicketCount(list[..n]);
    }
  }

  lemma {:induction false} Numbered(s: set<nat>, n: nat)
    requires forall t: nat :: t in s <==> t < n
    ensures |s| == n
  {
    if n > 0 {
      Numbered(s - {n - 1}, n - 1);
    } else {
      assert s == {};
    }
  }

  lemma ListOrderly(lists: Lists, home: map<nat, string>, key: string)
    requires ListsMatch(lists, home) && key in lists
    ensures Orderly(lists[key]) && OneTicketEach(lists[key])
  {
  }

  lemma WithoutOne(list: seq<Waiter>, i: nat)
    requires Orderly(list) && i < |list|
    ensures var left := list[..i] + list[i + 1..];
            && Orderly(left) && Tickets(left) !! {list[i].ticket} && Tickets(list) == Tickets(left) + {list[i].ticket}
  {
    var left := list[..i] + list[i + 1..];
    forall t | t in Tickets(list) ensures t in Tickets(left) + {list[i].ticket} {
      var j :| 0 <= j < |list| && list[j].ticket == t;
      if j < i { assert left[j].ticket == t; } else if j > i { assert left[j - 1].ticket == t; }
    }
  }

  // ----- runs -----

  datatype Op =
    | Park(key: string, id: nat, timeoutAt: nat, hasCallback: bool)
    | Broadcast(key: string, code: int, body: string)
    | Cancel(key: string, id: nat)
    | PurgeTimeout(now: nat)
    | Clear

  /** Any run whatever: all the while every waiter that parked is in exactly one place, no fate is
      revised, and no callback is made twice or taken back. */
  method RunAll(lot: ParkingLot, ops: seq<Op>)
    requires lot.Valid()
    modifies lot
    ensures lot.Valid() && lot.parked >= old(lot.parked)
    ensures Final(old(lot.fates), lot.fates) && old(lot.fired) <= lot.fired
    ensures forall t: nat :: t < lot.parked <==> (t in lot.home) != (t in lot.fates)
  {
    hide ListsMatch, FiredOnce, Tickets, Settle, DueTickets, ParkingOrder, OneTicketEach;
    for i := 0 to |ops|
      invariant lot.Valid() && lot.parked >= old(lot.parked)
      invariant Final(old(lot.fates), lot.fates) && old(lot.fired) <= lot.fired
    {
      match ops[i] {
        case Park(key, id, timeoutAt, hasCallback) => var ok := lot.Park(key, id, timeoutAt, hasCallback);
        case Broadcast(key, code, body) => var n := lot.BroadcastAndUnpark(key, code, body);
        case Cancel(key, id) => var ok := lot.Cancel(key, id);
        case PurgeTimeout(now) => var n, timedOut := lot.PurgeTimeout(now);
        case Clear => lot.Clear();
      }
    }
  }
}
