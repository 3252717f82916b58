/** What `unsubscribe` removes and what it leaves, entry by entry. */
module Unsubscribing {
  import opened Prelude
  import opened Tables

  /** Where in the list those entries stood that are left. */
  lemma {:induction false} KeptAt(subs: seq<Subscriber>, conn: ConnId, subId: Option<SubId>) returns (at: seq<nat>)
    ensures |at| == |Keep(subs, conn, subId)|
    ensures forall i :: 0 <= i < |at| ==> at[i] < |subs| && Keep(subs, conn, subId)[i] == subs[at[i]]
    ensures forall i, j :: 0 <= i < j < |at| ==> at[i] < at[j]
    ensures forall k: nat :: k < |subs| ==> (k in at <==> !Matches(subs[k], conn, subId))
  {
    at := [];
    if subs != [] {
      var last, init := subs[|subs| - 1], subs[..|subs| - 1];
      assert subs == init + [last];
      KeepAppend(init, last, conn, subId);
      at := KeptAt(init, conn, subId);
      if !Matches(last, conn, subId) {
        at := at + [|init|];
      }
    }
  }

  lemma {:induction false} KeepAppend(subs: seq<Subscriber>, u: Subscriber, conn: ConnId, subId: Option<SubId>)
    ensures Keep(subs + [u], conn, subId) == Keep(subs, conn, subId) + (if Matches(u, conn, subId) then [] else [u])
  {
    if subs == [] {
      assert Keep([u][1..], conn, subId) == [];
    } else {
      KeepAppend(subs[1..], u, conn, subId);
      assert (subs + [u])[1..] == subs[1..] + [u];
    }
  }

  lemma {:induction false} LeftUnder(table: Table, conn: ConnId, subId: Option<SubId>, t: Tag)
    ensures SubsOf(KeepAll(table, conn, subId), t) == Keep(SubsOf(table, t), conn, subId)
  {}

  /**
   With an id, exactly the entries of that connection with that id go; every other entry, the
   connection's own included, stays under its tag in its order.
   */
  lemma {:induction false} UnsubscribeOne(s: Service, conn: ConnId, id: SubId, t: Tag) returns (at: seq<nat>)
    requires id != ""
    ensures var before, after := SubsOf(s.table, t), SubsOf(Unsubscribe(s, conn, Some(id)).table, t);
      && |at| == |after|
      && (forall i :: 0 <= i < |at| ==> at[i] < |before| && after[i] == before[at[i]])
      && (forall i, j :: 0 <= i < j < |at| ==> at[i] < at[j])
      && (forall k: nat :: k < |before| ==> (k in at <==> before[k].conn != conn || before[k].id != id))
  {
    LeftUnder(s.table, conn, Some(id), t);
    at := KeptAt(SubsOf(s.table, t), conn, Some(id));
  }

  /** Without an id, or with an empty one, exactly the connection's entries go. */
  lemma {:induction false} UnsubscribeAll(s: Service, conn: ConnId, subId: Option<SubId>, t: Tag) returns (at: seq<nat>)
    requires subId == None || subId == Some("")
    ensures var before, after := SubsOf(s.table, t), SubsOf(Unsubscribe(s, conn, subId).table, t);
      && |at| == |after|
      && (forall i :: 0 <= i < |at| ==> at[i] < |before| && after[i] == before[at[i]])
      && (forall i, j :: 0 <= i < j < |at| ==> at[i] < at[j])
      && (forall k: nat :: k < |before| ==> (k in at <==> before[k].conn != conn))
  {
    LeftUnder(s.table, conn, subId, t);
    at := KeptAt(SubsOf(s.table, t), conn, subId);
  }

  // ---------- how many ----------

  /** The places of the entries that match, as (tag, index) pairs. */
  ghost function Places(table: Table, conn: ConnId, subId: Option<SubId>): set<(Tag, nat)> {
    set t, k: nat | t in table && k < |table[t]| && Matches(table[t][k], conn, subId) :: (t, k)
  }

  ghost function PlacesIn(subs: seq<Subscriber>, t: Tag, conn: ConnId, subId: Option<SubId>): set<(Tag, nat)> {
    set k: nat | k < |subs| && Matches(subs[k], conn, subId) :: (t, k)
  }

  lemma {:induction false} MatchAppend(subs: seq<Subscriber>, u: Subscriber, conn: ConnId, subId: Option<SubId>)
    ensures MatchCount(subs + [u], conn, subId) == MatchCount(subs, conn, subId) + (if Matches(u, conn, subId) then 1 else 0)
  {
    if subs != [] {
      MatchAppend(subs[1..], u, conn, subId);
      assert (subs + [u])[1..] == subs[1..] + [u];
    }
  }

  lemma {:induction false} PlacesAppend(subs: seq<Subscriber>, u: Subscriber, t: Tag, conn: ConnId, subId: Option<SubId>)
    ensures var more := if Matches(u, conn, subId) then {(t, |subs|)} else {};
      && PlacesIn(subs + [u], t, conn, subId) == PlacesIn(subs, t, conn, subId) + more
      && (t, |subs|) !in PlacesIn(subs, t, conn, subId)
  {
    var more := if Matches(u, conn, subId) then {(t, |subs|)} else {};
    forall p ensures p in PlacesIn(subs + [u], t, conn, subId) <==> p in PlacesIn(subs, t, conn, subId) + more {
      assert p.1 < |subs| ==> (subs + [u])[p.1] == subs[p.1];
    }
  }

  lemma {:induction false} CountIn(subs: seq<Subscriber>, t: Tag, conn: ConnId, subId: Option<SubId>)
    ensures MatchCount(subs, conn, subId) == |PlacesIn(subs, t, conn, subId)|
  {
    if subs == [] {
      assert PlacesIn(subs, t, conn, subId) == {};
    } else {
      var last, init := subs[|subs| - 1], subs[..|subs| - 1];
      assert subs == init + [last];
      MatchAppend(init, last, conn, subId);
      CountIn(init, t, conn, subId);
      PlacesAppend(init, last, t, conn, subId);
    }
  }

  lemma {:induction false} PlacesSplit(table: Table, t: Tag, conn: ConnId, subId: Option<SubId>)
    requires t in table
    ensures Places(table, conn, subId) == Places(table - {t}, conn, subId) + PlacesIn(table[t], t, conn, subId)
    ensures Places(table - {t}, conn, subId) !! PlacesIn(table[t], t, conn, subId)
  {
    forall p ensures p in Places(table, conn, subId) <==>
      p in Places(table - {t}, conn, subId) || p in PlacesIn(table[t], t, conn, subId)
    {}
  }

  lemma {:induction false} TotalIsPlaces(table: Table, conn: ConnId, subId: Option<SubId>)
    ensures TotalMatches(table, conn, subId) == |Places(table, conn, subId)|
    decreases |table|
  {
    if table == map[] {
      assert Places(table, conn, subId) == {};
    } else {
      var t :| t in table;
      assert (table - {t}).Keys == table.Keys - {t};
      TotalSplit(table, conn, subId, t);
      TotalIsPlaces(table - {t}, conn, subId);
      CountIn(table[t], t, conn, subId);
      PlacesSplit(table, t, conn, subId);
    }
  }

  /** The count of one id is the number of entries of that connection with that id, over all tags. */
  lemma {:induction false} CountsOne(table: Table, conn: ConnId, id: SubId)
    requires id != ""
    ensures TotalMatches(table, conn, Some(id))
         == |set t, k: nat | t in table && k < |table[t]| && table[t][k].conn == conn && table[t][k].id == id :: (t, k)|
    ensures TotalMatches(table, conn, Some(id)) != 0 <==>
      exists t, u :: t in table && u in table[t] && u.conn == conn && u.id == id
  {
    TotalIsPlaces(table, conn, Some(id));
    var places := Places(table, conn, Some(id));
    assert places == set t, k: nat | t in table && k < |table[t]| && table[t][k].conn == conn && table[t][k].id == id :: (t, k);
    AnyPlace(table, conn, Some(id));
    if t, u :| t in table && u in table[t] && u.conn == conn && u.id == id {
      assert Matches(u, conn, Some(id));
    }
  }

  /** A connection's live subscriptions are its entries, over all tags. */
  lemma {:induction false} CountsAll(table: Table, conn: ConnId, subId: Option<SubId>)
    requires subId == None || subId == Some("")
    ensures TotalMatches(table, conn, subId)
         == |set t, k: nat | t in table && k < |table[t]| && table[t][k].conn == conn :: (t, k)|
    ensures TotalMatches(table, conn, subId) != 0 <==> exists t, u :: t in table && u in table[t] && u.conn == conn
  {
    TotalIsPlaces(table, conn, subId);
    var places := Places(table, conn, subId);
    assert places == set t, k: nat | t in table && k < |table[t]| && table[t][k].conn == conn :: (t, k);
    AnyPlace(table, conn, subId);
    if t, u :| t in table && u in table[t] && u.conn == conn {
      assert Matches(u, conn, subId);
    }
  }

  lemma {:induction false} AnyPlace(table: Table, conn: ConnId, subId: Option<SubId>)
    ensures |Places(table, conn, subId)| != 0 <==> exists t, u :: t in table && u in table[t] && Matches(u, conn, subId)
  {
    var places := Places(table, conn, subId);
    if |places| != 0 {
      var p :| p in places;
      assert table[p.0][p.1] in table[p.0];
    }
    if t, u :| t in table && u in table[t] && Matches(u, conn, subId) {
      var k :| 0 <= k < |table[t]| && table[t][k] == u;
      assert (t, k) in places;
    }
  }

  // ---------- polls ----------

  lemma {:induction false} WithoutAppend(polls: seq<Poll>, p: Poll, dead: set<Tag>)
    ensures Without(polls + [p], dead) == Without(polls, dead) + (if p.tag in dead then [] else [p])
  {
    if polls == [] {
      assert Without([p][1..], dead) == [];
    } else {
      WithoutAppend(polls[1..], p, dead);
      assert (polls + [p])[1..] == polls[1..] + [p];
    }
  }

  lemma {:induction false} PollsKept(polls: seq<Poll>, dead: set<Tag>) returns (at: seq<nat>)
    ensures |at| == |Without(polls, dead)|
    ensures forall i :: 0 <= i < |at| ==> at[i] < |polls| && Without(polls, dead)[i] == polls[at[i]]
    ensures forall i, j :: 0 <= i < j < |at| ==> at[i] < at[j]
    ensures forall k: nat :: k < |polls| ==> (k in at <==> polls[k].tag !in dead)
  {
    at := [];
    if polls != [] {
      var last, init := polls[|polls| - 1], polls[..|polls| - 1];
      assert polls == init + [last];
      WithoutAppend(init, last, dead);
      at := PollsKept(init, dead);
      if last.tag !in dead {
        at := at + [|init|];
      }
    }
  }

  /** The polls of removed tags go, all others stay as they are and in their order. */
  lemma {:induction false} PollsLeft(p: Poller, dead: set<Tag>) returns (at: seq<nat>)
    ensures var after := RemovePolls(p, dead).polls;
      && |at| == |after|
      && (forall i :: 0 <= i < |at| ==> at[i] < |p.polls| && after[i] == p.polls[at[i]])
      && (forall i, j :: 0 <= i < j < |at| ==> at[i] < at[j])
      && (forall k: nat :: k < |p.polls| ==> (k in at <==> p.polls[k].tag !in dead))
  {
    at := PollsKept(p.polls, dead);
  }
}
