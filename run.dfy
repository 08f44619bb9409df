/** The steps of Circuit.Run (circuit.go:171-300) on values: the groups it
    builds from the feeds and wires, the feed push, the binding of one
    gadget's pins, the closing of the inputs nothing feeds, and the admin
    loop. Group pointers are indices into an arena of groups. */
module RunSteps {
  import opened Runtime
  import opened GoStrings
  import opened CircuitSpec

  // ---------------------------------------------------------------------
  // groups

  /** No output pin is bound to any group yet. */
  ghost predicate Idle(arena: seq<Group>) {
    forall r :: 0 <= r < |arena| ==> arena[r].fanIn == 0
  }

  /** The loop over the feeds that starts both initPins' groups and Run's
      inbound map: every fed pin gets its own group, numbered in visit
      order, with a channel just large enough for its feed. */
  method FeedGroups(feeds: map<string, seq<Memo>>, feedOrder: seq<string>)
    returns (slots: map<string, nat>, arena: seq<Group>)
    requires Enumerates(feedOrder, feeds.Keys)
    ensures slots.Keys == feeds.Keys
    ensures |arena| == |feedOrder|
    ensures forall i :: 0 <= i < |feedOrder| ==> slots[feedOrder[i]] == i
    ensures forall k :: k in slots ==> slots[k] < |arena| && arena[slots[k]] == Group(0, Some(MakeChan(|feeds[k]|)))
  {
    slots, arena := map[], [];
    var i := 0;
    while i < |feedOrder|
      invariant 0 <= i <= |feedOrder| && |arena| == i
      invariant forall k :: k in slots ==> k in feeds
      invariant forall j :: 0 <= j < i ==> feedOrder[j] in slots && slots[feedOrder[j]] == j
      invariant forall k :: k in slots ==> slots[k] < i && arena[slots[k]] == Group(0, Some(MakeChan(|feeds[k]|)))
    {
      var k := feedOrder[i];
      slots := slots[k := i];
      arena := arena + [Group(0, Some(MakeChan(|feeds[k]|)))];
      i := i + 1;
    }
  }

  /** The inner loop of the feed push: each memo of `v`, in order, finds a
      free slot in the buffer, so none of the sends blocks. */
  method FeedChannel(ch: Chan, v: seq<Memo>) returns (ch': Chan)
    requires !ch.closed && |ch.queue| + |v| <= ch.capacity
    ensures ch' == SendAll(ch, v)
    ensures |ch'.queue| <= ch'.capacity
  {
    ch' := ch;
    var j := 0;
    while j < |v|
      invariant j <= |v|
      invariant ch' == ch.(queue := ch.queue + v[..j])
    {
      ch' := SendBuffered(ch', v[j]);
      TakeOneMore(v, j);
      j := j + 1;
    }
    assert v[..j] == v;
  }

  /** The feed push of Run (circuit.go:203-208): every fed pin's channel
      receives its feed, in order; no send blocks, because Run made each
      fed channel at least as large as its feed; no other group changes. */
  method PushFeeds(feeds: map<string, seq<Memo>>, feedOrder: seq<string>, inbound: map<string, nat>, arena: seq<Group>)
    returns (arena': seq<Group>)
    requires Enumerates(feedOrder, feeds.Keys)
    requires forall k :: k in feeds ==> k in inbound && inbound[k] < |arena|
    requires forall a, b :: a in inbound && b in inbound && inbound[a] == inbound[b] ==> a == b
    requires forall k :: k in feeds ==>
               && arena[inbound[k]].channel.Some? && !arena[inbound[k]].channel.value.closed
               && |arena[inbound[k]].channel.value.queue| + |feeds[k]| <= arena[inbound[k]].channel.value.capacity
    ensures |arena'| == |arena|
    ensures forall k :: k in feeds ==>
              arena'[inbound[k]] == arena[inbound[k]].(channel := Some(SendAll(arena[inbound[k]].channel.value, feeds[k])))
    ensures forall r :: 0 <= r < |arena| && (forall k :: k in feeds ==> inbound[k] != r) ==> arena'[r] == arena[r]
  {
    arena' := arena;
    ghost var filled: set<nat> := {};
    var i := 0;
    while i < |feedOrder|
      invariant i <= |feedOrder| && |arena'| == |arena|
      invariant forall t :: 0 <= t < i ==>
                  var k := feedOrder[t];
                  inbound[k] in filled && arena'[inbound[k]] == arena[inbound[k]].(channel := Some(SendAll(arena[inbound[k]].channel.value, feeds[k])))
      invariant forall t :: i <= t < |feedOrder| ==> inbound[feedOrder[t]] !in filled
      invariant forall r :: 0 <= r < |arena| && r !in filled ==> arena'[r] == arena[r]
      invariant forall r :: r in filled ==> exists k :: k in feeds && inbound[k] == r
    {
      var k := feedOrder[i];
      var r := inbound[k];
      var ch := FeedChannel(arena'[r].channel.value, feeds[k]);
      arena' := arena'[r := arena'[r].(channel := Some(ch))];
      forall t | i < t < |feedOrder|
        ensures inbound[feedOrder[t]] != r
      {
        assert feedOrder[t] != k;
      }
      filled := filled + {r};
      i := i + 1;
    }
  }

  /** One wire of Run's wire loop took the maps and arena from the first
      state to the second: `to` got a new group with a nil channel if it
      had none, that group's channel was replaced by one of capacity
      `wcap` if its capacity was smaller, `from` now points at the group,
      and nothing else changed. `owners` names the pin of each group. */
  ghost predicate RunWireStep(inbound: map<string, nat>, outbound: map<string, nat>, arena: seq<Group>, owners: seq<string>,
                              from: string, to: string, wcap: int,
                              inbound': map<string, nat>, outbound': map<string, nat>, arena': seq<Group>, owners': seq<string>)
  {
    && (to in inbound ==> inbound' == inbound && owners' == owners && |arena'| == |arena| && inbound[to] < |arena|)
    && (to !in inbound ==> inbound' == inbound[to := |arena|] && owners' == owners + [to] && |arena'| == |arena| + 1)
    && (var g := if to in inbound then arena[inbound[to]] else Group(0, None);
        arena'[inbound'[to]] == (if Cap(g.channel) < wcap then g.(channel := Some(MakeChan(wcap))) else g))
    && (forall r :: 0 <= r < |arena| && r != inbound'[to] ==> arena'[r] == arena[r])
    && outbound' == outbound[from := inbound'[to]]
  }

  /** One iteration of Run's wire loop (circuit.go:183-196): `to` gets a
      group with a nil channel if it has none, that group's channel is
      replaced by one of capacity `wcap` when its capacity is smaller, and
      `from` points at the group. The result is (inbound, outbound, arena). */
  function RunWire(inbound: map<string, nat>, outbound: map<string, nat>, arena: seq<Group>, from: string, to: string, wcap: int)
    : (r: (map<string, nat>, map<string, nat>, seq<Group>))
    requires forall k :: k in inbound ==> inbound[k] < |arena|
    ensures forall k :: k in r.0 ==> r.0[k] < |r.2|
    ensures Idle(arena) ==> Idle(r.2)
  {
    var inbound1 := if to in inbound then inbound else inbound[to := |arena|];
    var arena1 := if to in inbound then arena else arena + [Group(0, None)];
    var g := inbound1[to];
    var arena2 := if Cap(arena1[g].channel) < wcap then arena1[g := arena1[g].(channel := Some(MakeChan(wcap)))] else arena1;
    (inbound1, outbound[from := g], arena2)
  }

  /** The pin owning each group after one more wire: a new group belongs
      to the wire's target. */
  ghost function OwnersAfter(inbound: map<string, nat>, owners: seq<string>, to: string): seq<string> {
    if to in inbound then owners else owners + [to]
  }

  /** RunWire takes one step as RunWireStep describes it. */
  lemma RunWireSteps(inbound: map<string, nat>, outbound: map<string, nat>, arena: seq<Group>, owners: seq<string>,
                     from: string, to: string, wcap: int)
    requires forall k :: k in inbound ==> inbound[k] < |arena|
    ensures var r := RunWire(inbound, outbound, arena, from, to, wcap);
            RunWireStep(inbound, outbound, arena, owners, from, to, wcap, r.0, r.1, r.2, OwnersAfter(inbound, owners, to))
  {
  }

  /** After the first `n` wires of `ws`: the inbound pins are the fed
      pins and the targets seen so far, each owning its group (`owners`
      names the pin of each group); the outbound pins are the sources seen
      so far, each pointing at a group. */
  ghost predicate KeysUpTo(feeds: map<string, seq<Memo>>, wires: map<string, int>, ws: seq<string>, n: nat,
                           inbound: map<string, nat>, outbound: map<string, nat>, arena: seq<Group>, owners: seq<string>)
    requires forall w :: w in wires ==> '/' in w
    requires forall i :: 0 <= i < |ws| ==> ws[i] in wires
  {
    && n <= |ws|
    && |owners| == |arena|
    && (forall k :: k in inbound ==> inbound[k] < |arena| && owners[inbound[k]] == k && (k in feeds || k in Tos(wires)))
    && (forall k :: k in feeds ==> k in inbound)
    && (forall i :: 0 <= i < n ==> To(ws[i]) in inbound && From(ws[i]) in outbound)
    && (forall f :: f in outbound ==> f in Froms(wires) && outbound[f] < |arena|)
  }

  /** After the first `n` wires of `ws`, each inbound pin's group is sized
      for its feed and the wires into it seen so far. */
  ghost predicate SizedAll(feeds: map<string, seq<Memo>>, wires: map<string, int>, ws: seq<string>, n: nat,
                           inbound: map<string, nat>, arena: seq<Group>)
    requires forall w :: w in wires ==> '/' in w
    requires forall i :: 0 <= i < |ws| ==> ws[i] in wires
    requires n <= |ws|
  {
    forall k :: k in inbound && inbound[k] < |arena| ==> SizedUpTo(arena[inbound[k]], k, feeds, wires, ws, n)
  }

  /** After the first `n` wires of `ws`, each source points at the group of
      the target of the last wire seen that leaves it; `last` holds the
      index of that wire. */
  ghost predicate LastUpTo(ws: seq<string>, n: nat, inbound: map<string, nat>, outbound: map<string, nat>, last: map<string, nat>)
    requires n <= |ws|
    requires forall i :: 0 <= i < |ws| ==> '/' in ws[i]
  {
    && (forall f :: f in outbound ==>
          && f in last && last[f] < n && From(ws[last[f]]) == f
          && To(ws[last[f]]) in inbound && outbound[f] == inbound[To(ws[last[f]])])
    && (forall i :: 0 <= i < n ==> From(ws[i]) in last && last[From(ws[i])] >= i)
  }

  /** The group of the target of wire `n` is sized for one more wire. */
  lemma SizedTargetStep(g: Group, g': Group, to: string, feeds: map<string, seq<Memo>>, wires: map<string, int>, ws: seq<string>, n: nat)
    requires forall w :: w in wires ==> '/' in w
    requires forall i :: 0 <= i < |ws| ==> ws[i] in wires
    requires n < |ws| && To(ws[n]) == to
    requires SizedUpTo(g, to, feeds, wires, ws, n)
    requires g' == (if Cap(g.channel) < wires[ws[n]] then g.(channel := Some(MakeChan(wires[ws[n]]))) else g)
    ensures SizedUpTo(g', to, feeds, wires, ws, n + 1)
  {
    var wcap := wires[ws[n]];
    if Cap(g.channel) < wcap {
      assert g'.channel.value.capacity == wcap;
      forall i | 0 <= i < n + 1 && To(ws[i]) == to
        ensures wcap >= wires[ws[i]]
      {
        if i < n && g.channel.Some? {
          assert g.channel.value.capacity >= wires[ws[i]];
        }
      }
    } else if g.channel.Some? {
      assert g'.channel.value.capacity >= wcap;
      if !(to in feeds && g'.channel.value.capacity == |feeds[to]|) {
        var i :| 0 <= i < n && To(ws[i]) == to && g.channel.value.capacity == wires[ws[i]];
        assert 0 <= i < n + 1;
      }
    }
  }

  /** A group that is not the target's keeps its sizing over one more wire. */
  lemma SizedOtherStep(g: Group, k: string, feeds: map<string, seq<Memo>>, wires: map<string, int>, ws: seq<string>, n: nat)
    requires forall w :: w in wires ==> '/' in w
    requires forall i :: 0 <= i < |ws| ==> ws[i] in wires
    requires n < |ws| && To(ws[n]) != k
    requires SizedUpTo(g, k, feeds, wires, ws, n)
    ensures SizedUpTo(g, k, feeds, wires, ws, n + 1)
  {
    if g.channel.Some? && !(k in feeds && g.channel.value.capacity == |feeds[k]|) {
      var i :| 0 <= i < n && To(ws[i]) == k && g.channel.value.capacity == wires[ws[i]];
      assert 0 <= i < n + 1;
    }
  }

  /** One more wire keeps KeysUpTo. */
  lemma KeysStep(feeds: map<string, seq<Memo>>, wires: map<string, int>, ws: seq<string>, n: nat,
                 inbound: map<string, nat>, outbound: map<string, nat>, arena: seq<Group>, owners: seq<string>,
                 inbound': map<string, nat>, outbound': map<string, nat>, arena': seq<Group>, owners': seq<string>)
    requires forall w :: w in wires ==> '/' in w
    requires forall i :: 0 <= i < |ws| ==> ws[i] in wires
    requires n < |ws|
    requires KeysUpTo(feeds, wires, ws, n, inbound, outbound, arena, owners)
    requires RunWireStep(inbound, outbound, arena, owners, From(ws[n]), To(ws[n]), wires[ws[n]], inbound', outbound', arena', owners')
    ensures KeysUpTo(feeds, wires, ws, n + 1, inbound', outbound', arena', owners')
  {
    var w := ws[n];
    assert To(w) in inbound';
    assert From(w) in Froms(wires) && To(w) in Tos(wires);
    forall k | k in inbound'
      ensures inbound'[k] < |arena'| && owners'[inbound'[k]] == k && (k in feeds || k in Tos(wires))
    {
      if k != To(w) {
        assert k in inbound && inbound'[k] == inbound[k];
      }
    }
    forall i | 0 <= i < n + 1
      ensures To(ws[i]) in inbound' && From(ws[i]) in outbound'
    {
    }
  }

  /** One more wire keeps SizedAll. */
  lemma SizedStep(feeds: map<string, seq<Memo>>, wires: map<string, int>, ws: seq<string>, n: nat,
                  inbound: map<string, nat>, outbound: map<string, nat>, arena: seq<Group>, owners: seq<string>,
                  inbound': map<string, nat>, outbound': map<string, nat>, arena': seq<Group>, owners': seq<string>)
    requires forall w :: w in wires ==> '/' in w
    requires forall i :: 0 <= i < |ws| ==> ws[i] in wires
    requires n < |ws|
    requires KeysUpTo(feeds, wires, ws, n, inbound, outbound, arena, owners)
    requires SizedAll(feeds, wires, ws, n, inbound, arena)
    requires RunWireStep(inbound, outbound, arena, owners, From(ws[n]), To(ws[n]), wires[ws[n]], inbound', outbound', arena', owners')
    ensures SizedAll(feeds, wires, ws, n + 1, inbound', arena')
  {
    var to := To(ws[n]);
    assert to in inbound';
    var r := inbound'[to];
    forall k | k in inbound' && inbound'[k] < |arena'|
      ensures SizedUpTo(arena'[inbound'[k]], k, feeds, wires, ws, n + 1)
    {
      if k == to {
        var g := if to in inbound then arena[inbound[to]] else Group(0, None);
        SizedTargetStep(g, arena'[r], to, feeds, wires, ws, n);
      } else {
        assert k in inbound && inbound'[k] == inbound[k];
        assert owners[inbound[k]] == k;
        assert inbound[k] != r;
        SizedOtherStep(arena[inbound[k]], k, feeds, wires, ws, n);
      }
    }
  }

  /** One more wire keeps LastUpTo. */
  lemma LastStep(wires: map<string, int>, ws: seq<string>, n: nat,
                 inbound: map<string, nat>, outbound: map<string, nat>, arena: seq<Group>, owners: seq<string>, last: map<string, nat>,
                 inbound': map<string, nat>, outbound': map<string, nat>, arena': seq<Group>, owners': seq<string>)
    requires forall i :: 0 <= i < |ws| ==> ws[i] in wires && '/' in ws[i]
    requires n < |ws|
    requires LastUpTo(ws, n, inbound, outbound, last)
    requires RunWireStep(inbound, outbound, arena, owners, From(ws[n]), To(ws[n]), wires[ws[n]], inbound', outbound', arena', owners')
    ensures LastUpTo(ws, n + 1, inbound', outbound', last[From(ws[n]) := n])
  {
    var from, to := From(ws[n]), To(ws[n]);
    assert to in inbound';
    var last' := last[from := n];
    forall f | f in outbound'
      ensures && f in last' && last'[f] < n + 1 && From(ws[last'[f]]) == f
              && To(ws[last'[f]]) in inbound' && outbound'[f] == inbound'[To(ws[last'[f]])]
    {
      if f != from {
        var t := To(ws[last[f]]);
        assert t in inbound && inbound'[t] == inbound[t];
      }
    }
    forall i | 0 <= i < n + 1
      ensures From(ws[i]) in last' && last'[From(ws[i])] >= i
    {
    }
  }

  /** Run's wire loop over the wires of `ws` from index `n` on. */
  function RunWiresFrom(wires: map<string, int>, ws: seq<string>, n: nat,
                        inbound: map<string, nat>, outbound: map<string, nat>, arena: seq<Group>)
    : (r: (map<string, nat>, map<string, nat>, seq<Group>))
    requires forall i :: 0 <= i < |ws| ==> ws[i] in wires && '/' in ws[i]
    requires n <= |ws|
    requires forall k :: k in inbound ==> inbound[k] < |arena|
    ensures forall k :: k in r.0 ==> r.0[k] < |r.2|
    ensures Idle(arena) ==> Idle(r.2)
    decreases |ws| - n
  {
    if n == |ws| then (inbound, outbound, arena)
    else
      var w := ws[n];
      var next := RunWire(inbound, outbound, arena, From(w), To(w), wires[w]);
      RunWiresFrom(wires, ws, n + 1, next.0, next.1, next.2)
  }

  /** The wire loop from wire `n` on keeps KeysUpTo and SizedAll, for the
      owners the new groups get. */
  lemma {:induction false} WiresSized(feeds: map<string, seq<Memo>>, wires: map<string, int>, ws: seq<string>, n: nat,
                                      inbound: map<string, nat>, outbound: map<string, nat>, arena: seq<Group>,
                                      owners: seq<string>, inbound': map<string, nat>, outbound': map<string, nat>, arena': seq<Group>)
    returns (owners': seq<string>)
    requires forall w :: w in wires ==> '/' in w
    requires forall i :: 0 <= i < |ws| ==> ws[i] in wires
    requires KeysUpTo(feeds, wires, ws, n, inbound, outbound, arena, owners)
    requires SizedAll(feeds, wires, ws, n, inbound, arena)
    requires (inbound', outbound', arena') == RunWiresFrom(wires, ws, n, inbound, outbound, arena)
    ensures KeysUpTo(feeds, wires, ws, |ws|, inbound', outbound', arena', owners')
    ensures SizedAll(feeds, wires, ws, |ws|, inbound', arena')
    decreases |ws| - n
  {
    if n == |ws| {
      owners' := owners;
    } else {
      var w := ws[n];
      var r := RunWire(inbound, outbound, arena, From(w), To(w), wires[w]);
      var owners1 := OwnersAfter(inbound, owners, To(w));
      RunWireSteps(inbound, outbound, arena, owners, From(w), To(w), wires[w]);
      KeysStep(feeds, wires, ws, n, inbound, outbound, arena, owners, r.0, r.1, r.2, owners1);
      SizedStep(feeds, wires, ws, n, inbound, outbound, arena, owners, r.0, r.1, r.2, owners1);
      owners' := WiresSized(feeds, wires, ws, n + 1, r.0, r.1, r.2, owners1, inbound', outbound', arena');
    }
  }

  /** The wire loop from wire `n` on keeps LastUpTo, with the index of each
      wire recorded against its source as it is seen. */
  lemma {:induction false} WiresLast(wires: map<string, int>, ws: seq<string>, n: nat,
                                     inbound: map<string, nat>, outbound: map<string, nat>, arena: seq<Group>,
                                     last: map<string, nat>, inbound': map<string, nat>, outbound': map<string, nat>, arena': seq<Group>)
    returns (last': map<string, nat>)
    requires forall i :: 0 <= i < |ws| ==> ws[i] in wires && '/' in ws[i]
    requires n <= |ws|
    requires forall k :: k in inbound ==> inbound[k] < |arena|
    requires LastUpTo(ws, n, inbound, outbound, last)
    requires (inbound', outbound', arena') == RunWiresFrom(wires, ws, n, inbound, outbound, arena)
    ensures LastUpTo(ws, |ws|, inbound', outbound', last')
    decreases |ws| - n
  {
    if n == |ws| {
      last' := last;
    } else {
      var w := ws[n];
      var r := RunWire(inbound, outbound, arena, From(w), To(w), wires[w]);
      RunWireSteps(inbound, outbound, arena, [], From(w), To(w), wires[w]);
      LastStep(wires, ws, n, inbound, outbound, arena, [], last, r.0, r.1, r.2, OwnersAfter(inbound, [], To(w)));
      last' := WiresLast(wires, ws, n + 1, r.0, r.1, r.2, last[From(w) := n], inbound', outbound', arena');
    }
  }

  /** Run's wire loop (circuit.go:183-196), from the groups of the feeds. */
  method RunWires(wires: map<string, int>, wireOrder: seq<string>, inbound0: map<string, nat>, arena0: seq<Group>)
    returns (inbound: map<string, nat>, outbound: map<string, nat>, arena: seq<Group>)
    requires forall i :: 0 <= i < |wireOrder| ==> wireOrder[i] in wires && '/' in wireOrder[i]
    requires forall k :: k in inbound0 ==> inbound0[k] < |arena0|
    ensures (inbound, outbound, arena) == RunWiresFrom(wires, wireOrder, 0, inbound0, map[], arena0)
  {
    inbound, outbound, arena := inbound0, map[], arena0;
    var j := 0;
    while j < |wireOrder|
      invariant j <= |wireOrder|
      invariant forall k :: k in inbound ==> inbound[k] < |arena|
      invariant RunWiresFrom(wires, wireOrder, j, inbound, outbound, arena) == RunWiresFrom(wires, wireOrder, 0, inbound0, map[], arena0)
    {
      var w := wireOrder[j];
      var next := RunWire(inbound, outbound, arena, From(w), To(w), wires[w]);
      inbound, outbound, arena := next.0, next.1, next.2;
      j := j + 1;
    }
  }

  /** The groups Run builds (circuit.go:172-196): every fed pin and every
      target of a wire gets a group of its own, sized for its feed and the
      wires into it (a nil channel when there is nothing to size it for),
      and every source of a wire points at the group of the target of the
      last wire leaving it in the visit order. */
  method RunGroups(feeds: map<string, seq<Memo>>, wires: map<string, int>, feedOrder: seq<string>, wireOrder: seq<string>)
    returns (inbound: map<string, nat>, outbound: map<string, nat>, arena: seq<Group>)
    requires forall w :: w in wires ==> '/' in w
    requires Enumerates(feedOrder, feeds.Keys)
    requires Enumerates(wireOrder, wires.Keys)
    ensures inbound.Keys == feeds.Keys + Tos(wires)
    ensures outbound.Keys == Froms(wires)
    ensures forall k :: k in inbound ==> inbound[k] < |arena|
    ensures forall a, b :: a in inbound && b in inbound && inbound[a] == inbound[b] ==> a == b
    ensures forall f :: f in outbound ==> outbound[f] < |arena|
    ensures forall k :: k in inbound ==> SizedPin(arena[inbound[k]], k, feeds, wires)
    ensures PointsAtLast(wireOrder, inbound, outbound)
    ensures Idle(arena)
  {
    var slots, groups0 := FeedGroups(feeds, feedOrder);
    assert Idle(groups0) by {
      forall r | 0 <= r < |groups0|
        ensures groups0[r].fanIn == 0
      {
        assert groups0[r] == groups0[slots[feedOrder[r]]];
      }
    }
    forall k | k in slots
      ensures SizedUpTo(groups0[slots[k]], k, feeds, wires, wireOrder, 0)
    {
    }
    inbound, outbound, arena := RunWires(wires, wireOrder, slots, groups0);
    RunWiresMeet(feeds, wires, wireOrder, slots, groups0, feedOrder, inbound, outbound, arena);
  }

  /** The wire loop, started from the groups of the feeds, ends with the
      groups RunGroups promises. */
  lemma RunWiresMeet(feeds: map<string, seq<Memo>>, wires: map<string, int>, ws: seq<string>,
                     inbound0: map<string, nat>, arena0: seq<Group>, owners0: seq<string>,
                     inbound: map<string, nat>, outbound: map<string, nat>, arena: seq<Group>)
    requires forall w :: w in wires ==> '/' in w
    requires Enumerates(ws, wires.Keys)
    requires KeysUpTo(feeds, wires, ws, 0, inbound0, map[], arena0, owners0)
    requires SizedAll(feeds, wires, ws, 0, inbound0, arena0)
    requires (inbound, outbound, arena) == RunWiresFrom(wires, ws, 0, inbound0, map[], arena0)
    ensures inbound.Keys == feeds.Keys + Tos(wires)
    ensures outbound.Keys == Froms(wires)
    ensures forall a, b :: a in inbound && b in inbound && inbound[a] == inbound[b] ==> a == b
    ensures forall k :: k in inbound ==> SizedPin(arena[inbound[k]], k, feeds, wires)
    ensures PointsAtLast(ws, inbound, outbound)
  {
    var owners := WiresSized(feeds, wires, ws, 0, inbound0, map[], arena0, owners0, inbound, outbound, arena);
    var last := WiresLast(wires, ws, 0, inbound0, map[], arena0, map[], inbound, outbound, arena);
    WiresDone(feeds, wires, ws, inbound, outbound, arena, owners, last);
  }

  /** Once every wire is seen, the loop's invariants give what RunGroups
      promises. */
  lemma WiresDone(feeds: map<string, seq<Memo>>, wires: map<string, int>, ws: seq<string>,
                  inbound: map<string, nat>, outbound: map<string, nat>, arena: seq<Group>,
                  owners: seq<string>, last: map<string, nat>)
    requires forall w :: w in wires ==> '/' in w
    requires Enumerates(ws, wires.Keys)
    requires KeysUpTo(feeds, wires, ws, |ws|, inbound, outbound, arena, owners)
    requires SizedAll(feeds, wires, ws, |ws|, inbound, arena)
    requires LastUpTo(ws, |ws|, inbound, outbound, last)
    ensures inbound.Keys == feeds.Keys + Tos(wires)
    ensures outbound.Keys == Froms(wires)
    ensures forall a, b :: a in inbound && b in inbound && inbound[a] == inbound[b] ==> a == b
    ensures forall k :: k in inbound ==> SizedPin(arena[inbound[k]], k, feeds, wires)
    ensures PointsAtLast(ws, inbound, outbound)
  {
    InboundKeysDone(feeds, wires, ws, inbound);
    OutboundKeysDone(wires, ws, outbound);
    forall a, b | a in inbound && b in inbound && inbound[a] == inbound[b]
      ensures a == b
    {
      assert owners[inbound[a]] == a && owners[inbound[b]] == b;
    }
    RunSizedDone(feeds, wires, ws, inbound, arena);
    RunLastDone(ws, inbound, outbound, last);
  }

  /** Once every wire is seen, the inbound pins are exactly the fed pins
      and the targets. */
  lemma InboundKeysDone(feeds: map<string, seq<Memo>>, wires: map<string, int>, ws: seq<string>, inbound: map<string, nat>)
    requires forall w :: w in wires ==> '/' in w
    requires Enumerates(ws, wires.Keys)
    requires forall k :: k in inbound ==> k in feeds || k in Tos(wires)
    requires forall k :: k in feeds ==> k in inbound
    requires forall i :: 0 <= i < |ws| ==> To(ws[i]) in inbound
    ensures inbound.Keys == feeds.Keys + Tos(wires)
  {
    forall k | k in Tos(wires)
      ensures k in inbound
    {
      var w :| w in wires && k == To(w);
      var i :| 0 <= i < |ws| && ws[i] == w;
    }
  }

  /** Once every wire is seen, the outbound pins are exactly the sources. */
  lemma OutboundKeysDone(wires: map<string, int>, ws: seq<string>, outbound: map<string, nat>)
    requires forall w :: w in wires ==> '/' in w
    requires Enumerates(ws, wires.Keys)
    requires forall f :: f in outbound ==> f in Froms(wires)
    requires forall i :: 0 <= i < |ws| ==> From(ws[i]) in outbound
    ensures outbound.Keys == Froms(wires)
  {
    forall k | k in Froms(wires)
      ensures k in outbound
    {
      var w :| w in wires && k == From(w);
      var i :| 0 <= i < |ws| && ws[i] == w;
    }
  }

  /** Once every wire is seen, each inbound group is sized for all of them. */
  lemma RunSizedDone(feeds: map<string, seq<Memo>>, wires: map<string, int>, ws: seq<string>,
                     inbound: map<string, nat>, arena: seq<Group>)
    requires forall w :: w in wires ==> '/' in w
    requires Enumerates(ws, wires.Keys)
    requires forall k :: k in inbound ==> inbound[k] < |arena|
    requires SizedAll(feeds, wires, ws, |ws|, inbound, arena)
    ensures forall k :: k in inbound ==> SizedPin(arena[inbound[k]], k, feeds, wires)
  {
    forall k | k in inbound
      ensures SizedPin(arena[inbound[k]], k, feeds, wires)
    {
      SizedUpToAll(arena[inbound[k]], k, feeds, wires, ws);
    }
  }

  /** Every source points at the group of the target of the last wire
      of `ws` that leaves it. */
  ghost predicate PointsAtLast(ws: seq<string>, inbound: map<string, nat>, outbound: map<string, nat>)
    requires forall i :: 0 <= i < |ws| ==> '/' in ws[i]
  {
    forall f :: f in outbound ==>
      && LastFrom(ws, |ws|, f) >= 0 && To(ws[LastFrom(ws, |ws|, f)]) in inbound
      && outbound[f] == inbound[To(ws[LastFrom(ws, |ws|, f)])]
  }

  /** Once every wire is seen, `last` is LastFrom. */
  lemma RunLastDone(ws: seq<string>, inbound: map<string, nat>, outbound: map<string, nat>, last: map<string, nat>)
    requires forall i :: 0 <= i < |ws| ==> '/' in ws[i]
    requires LastUpTo(ws, |ws|, inbound, outbound, last)
    ensures PointsAtLast(ws, inbound, outbound)
  {
    forall f | f in outbound
      ensures LastFrom(ws, |ws|, f) == last[f]
    {
      forall j | last[f] < j < |ws|
        ensures From(ws[j]) != f
      {
        assert From(ws[j]) in last && last[From(ws[j])] >= j;
      }
      LastFromAt(ws, |ws|, f, last[f]);
    }
  }

  /** The groups Run starts its gadgets on (circuit.go:172-208): those of
      RunGroups, with every fed pin's channel holding its whole feed, in
      order, still open; no output is bound to any group yet. */
  method FedGroups(feeds: map<string, seq<Memo>>, wires: map<string, int>, feedOrder: seq<string>, wireOrder: seq<string>)
    returns (inbound: map<string, nat>, outbound: map<string, nat>, arena: seq<Group>)
    requires forall w :: w in wires ==> '/' in w
    requires Enumerates(feedOrder, feeds.Keys)
    requires Enumerates(wireOrder, wires.Keys)
    ensures inbound.Keys == feeds.Keys + Tos(wires) && outbound.Keys == Froms(wires)
    ensures forall k :: k in inbound ==> inbound[k] < |arena|
    ensures forall a, b :: a in inbound && b in inbound && inbound[a] == inbound[b] ==> a == b
    ensures forall k :: k in outbound ==> outbound[k] < |arena|
    ensures Idle(arena)
    ensures forall k :: k in feeds ==>
              var ch := arena[inbound[k]].channel;
              ch.Some? && ch.value.queue == feeds[k] && !ch.value.closed
  {
    var built;
    inbound, outbound, built := RunGroups(feeds, wires, feedOrder, wireOrder);
    arena := PushFeeds(feeds, feedOrder, inbound, built);
    forall k | k in feeds
      ensures arena[inbound[k]].channel.Some? && arena[inbound[k]].channel.value.queue == feeds[k]
    {
      assert SizedPin(built[inbound[k]], k, feeds, wires);
    }
    forall r | 0 <= r < |arena|
      ensures arena[r].fanIn == 0
    {
    }
  }

  // ---------------------------------------------------------------------
  // initPins' own groups

  /** A channel as made by make(): nil, or empty and open. */
  predicate Unused(ch: Option<Chan>) {
    ch.None? || (ch.value.queue == [] && !ch.value.closed)
  }

  /** One wire of the group loop of initPins took (groups, arena) to
      (groups', arena'): `to` got a new group with a nil channel if it had
      none, that group's channel was replaced by one of capacity `wcap` if
      its capacity was smaller, `from` shares it if `from` had no group,
      and nothing else changed. */
  ghost predicate InitWireStep(groups: map<string, nat>, arena: seq<Group>, from: string, to: string, wcap: int,
                               groups': map<string, nat>, arena': seq<Group>)
  {
    && groups'.Keys == groups.Keys + {from, to}
    && (to in groups ==> groups[to] < |arena| && |arena'| == |arena|)
    && (to !in groups ==> groups'[to] == |arena| && |arena'| == |arena| + 1)
    && (forall k :: k in groups ==> groups'[k] == groups[k])
    && (from !in groups ==> groups'[from] == groups'[to])
    && (var g := if to in groups then arena[groups[to]] else Group(0, None);
        arena'[groups'[to]] == (if Cap(g.channel) < wcap then g.(channel := Some(MakeChan(wcap))) else g))
    && (forall r :: 0 <= r < |arena| && r != groups'[to] ==> arena'[r] == arena[r])
  }

  /** One iteration of the group loop of initPins (circuit.go:101-113). */
  method InitWire(groups: map<string, nat>, arena: seq<Group>, from: string, to: string, wcap: int)
    returns (groups': map<string, nat>, arena': seq<Group>)
    requires forall k :: k in groups ==> groups[k] < |arena|
    ensures InitWireStep(groups, arena, from, to, wcap, groups', arena')
  {
    groups', arena' := groups, arena;
    if to !in groups' {
      groups' := groups'[to := |arena'|];
      arena' := arena' + [Group(0, None)];
    }
    var r := groups'[to];
    if Cap(arena'[r].channel) < wcap {
      arena' := arena'[r := arena'[r].(channel := Some(MakeChan(wcap)))];
    }
    if from !in groups' {
      groups' := groups'[from := r];
    }
  }

  /** After the first `n` wires of `ws`: every pin with a group is fed or
      an end of a wire; fed pins' channels hold their feeds; the target of
      each wire seen has a channel at least as large as the wire; every
      channel is fresh; and a pin that is neither fed nor a target shares
      the group of the target of the wire `via` names. */
  ghost predicate InitUpTo(feeds: map<string, seq<Memo>>, wires: map<string, int>, ws: seq<string>, n: nat,
                           groups: map<string, nat>, arena: seq<Group>, via: map<string, nat>)
    requires forall w :: w in wires ==> '/' in w
    requires forall i :: 0 <= i < |ws| ==> ws[i] in wires
  {
    && n <= |ws|
    && (forall k :: k in groups ==> groups[k] < |arena| && (k in feeds || k in Froms(wires) || k in Tos(wires)))
    && (forall k :: k in feeds ==> k in groups && Cap(arena[groups[k]].channel) >= |feeds[k]|)
    && (forall i :: 0 <= i < n ==>
          From(ws[i]) in groups && To(ws[i]) in groups && Cap(arena[groups[To(ws[i])]].channel) >= wires[ws[i]])
    && (forall r :: 0 <= r < |arena| ==> arena[r].fanIn == 0 && Unused(arena[r].channel))
    && (forall f :: f in groups && f !in feeds && f !in Tos(wires) ==>
          f in via && via[f] < n && From(ws[via[f]]) == f && To(ws[via[f]]) in groups && groups[f] == groups[To(ws[via[f]])])
  }

  /** One more wire keeps the pins and capacities of InitUpTo. */
  lemma InitCapStep(feeds: map<string, seq<Memo>>, wires: map<string, int>, ws: seq<string>, n: nat,
                    groups: map<string, nat>, arena: seq<Group>, groups': map<string, nat>, arena': seq<Group>)
    requires forall w :: w in wires ==> '/' in w
    requires forall i :: 0 <= i < |ws| ==> ws[i] in wires
    requires n < |ws|
    requires forall k :: k in groups ==> groups[k] < |arena| && (k in feeds || k in Froms(wires) || k in Tos(wires))
    requires forall k :: k in feeds ==> k in groups && Cap(arena[groups[k]].channel) >= |feeds[k]|
    requires forall i :: 0 <= i < n ==>
               From(ws[i]) in groups && To(ws[i]) in groups && Cap(arena[groups[To(ws[i])]].channel) >= wires[ws[i]]
    requires InitWireStep(groups, arena, From(ws[n]), To(ws[n]), wires[ws[n]], groups', arena')
    ensures forall k :: k in groups' ==> groups'[k] < |arena'| && (k in feeds || k in Froms(wires) || k in Tos(wires))
    ensures forall k :: k in feeds ==> k in groups' && Cap(arena'[groups'[k]].channel) >= |feeds[k]|
    ensures forall i :: 0 <= i < n + 1 ==>
              From(ws[i]) in groups' && To(ws[i]) in groups' && Cap(arena'[groups'[To(ws[i])]].channel) >= wires[ws[i]]
  {
    var w := ws[n];
    var to := To(w);
    assert to in groups';
    var r := groups'[to];
    assert From(w) in Froms(wires) && to in Tos(wires);
    forall k | k in feeds
      ensures k in groups' && Cap(arena'[groups'[k]].channel) >= |feeds[k]|
    {
      if groups[k] != r {
        assert arena'[groups[k]] == arena[groups[k]];
      }
    }
    forall i | 0 <= i < n + 1
      ensures From(ws[i]) in groups' && To(ws[i]) in groups' && Cap(arena'[groups'[To(ws[i])]].channel) >= wires[ws[i]]
    {
      if i < n && groups[To(ws[i])] != r {
        assert arena'[groups[To(ws[i])]] == arena[groups[To(ws[i])]];
      }
    }
  }

  /** One more wire keeps every channel fresh. */
  lemma InitFreshStep(groups: map<string, nat>, arena: seq<Group>, from: string, to: string, wcap: int,
                      groups': map<string, nat>, arena': seq<Group>)
    requires forall r :: 0 <= r < |arena| ==> arena[r].fanIn == 0 && Unused(arena[r].channel)
    requires InitWireStep(groups, arena, from, to, wcap, groups', arena')
    ensures forall r :: 0 <= r < |arena'| ==> arena'[r].fanIn == 0 && Unused(arena'[r].channel)
  {
    assert to in groups';
    forall q | 0 <= q < |arena'|
      ensures arena'[q].fanIn == 0 && Unused(arena'[q].channel)
    {
      if q != groups'[to] {
        assert arena'[q] == arena[q];
      }
    }
  }

  /** One more wire keeps the sharing of the pins that only send. */
  lemma InitViaStep(feeds: map<string, seq<Memo>>, wires: map<string, int>, ws: seq<string>, n: nat,
                    groups: map<string, nat>, arena: seq<Group>, via: map<string, nat>,
                    groups': map<string, nat>, arena': seq<Group>)
    requires forall w :: w in wires ==> '/' in w
    requires forall i :: 0 <= i < |ws| ==> ws[i] in wires
    requires n < |ws|
    requires forall f :: f in groups && f !in feeds && f !in Tos(wires) ==>
               f in via && via[f] < n && From(ws[via[f]]) == f && To(ws[via[f]]) in groups && groups[f] == groups[To(ws[via[f]])]
    requires InitWireStep(groups, arena, From(ws[n]), To(ws[n]), wires[ws[n]], groups', arena')
    ensures var via' := if From(ws[n]) in groups then via else via[From(ws[n]) := n];
            forall f :: f in groups' && f !in feeds && f !in Tos(wires) ==>
              f in via' && via'[f] < n + 1 && From(ws[via'[f]]) == f && To(ws[via'[f]]) in groups' && groups'[f] == groups'[To(ws[via'[f]])]
  {
    var from := From(ws[n]);
    var via' := if from in groups then via else via[from := n];
    assert To(ws[n]) in groups';
    forall f | f in groups' && f !in feeds && f !in Tos(wires)
      ensures f in via' && via'[f] < n + 1 && From(ws[via'[f]]) == f && To(ws[via'[f]]) in groups'
      ensures groups'[f] == groups'[To(ws[via'[f]])]
    {
      if f in groups {
        assert To(ws[via[f]]) in groups;
      }
    }
  }

  /** initPins' second group loop, over the wires in `ws`. */
  method InitWires(feeds: map<string, seq<Memo>>, wires: map<string, int>, ws: seq<string>,
                   groups0: map<string, nat>, arena0: seq<Group>)
    returns (groups: map<string, nat>, arena: seq<Group>, ghost via: map<string, nat>)
    requires forall w :: w in wires ==> '/' in w
    requires forall i :: 0 <= i < |ws| ==> ws[i] in wires
    requires InitUpTo(feeds, wires, ws, 0, groups0, arena0, map[])
    ensures InitUpTo(feeds, wires, ws, |ws|, groups, arena, via)
  {
    groups, arena, via := groups0, arena0, map[];
    var j := 0;
    while j < |ws|
      invariant j <= |ws|
      invariant InitUpTo(feeds, wires, ws, j, groups, arena, via)
    {
      var w := ws[j];
      ghost var (g0, a0) := (groups, arena);
      groups, arena := InitWire(groups, arena, From(w), To(w), wires[w]);
      InitCapStep(feeds, wires, ws, j, g0, a0, groups, arena);
      InitFreshStep(g0, a0, From(w), To(w), wires[w], groups, arena);
      InitViaStep(feeds, wires, ws, j, g0, a0, via, groups, arena);
      via := if From(w) in g0 then via else via[From(w) := j];
      j := j + 1;
    }
  }

  /** The groups initPins builds (circuit.go:92-115): every fed pin and
      every end of a wire has a group; every channel is fresh with fanIn
      0; a fed pin's channel can hold its feed and the channel of the
      target of each wire can hold the wire's capacity; and a pin that is
      neither fed nor a target shares the group of the target of some
      wire leaving it. */
  method InitGroups(feeds: map<string, seq<Memo>>, wires: map<string, int>, feedOrder: seq<string>, wireOrder: seq<string>)
    returns (groups: map<string, nat>, arena: seq<Group>)
    requires forall w :: w in wires ==> '/' in w
    requires Enumerates(feedOrder, feeds.Keys)
    requires Enumerates(wireOrder, wires.Keys)
    ensures groups.Keys == feeds.Keys + Froms(wires) + Tos(wires)
    ensures forall k :: k in groups ==> groups[k] < |arena|
    ensures forall r :: 0 <= r < |arena| ==> arena[r].fanIn == 0 && Unused(arena[r].channel)
    ensures forall k :: k in feeds ==> Cap(arena[groups[k]].channel) >= |feeds[k]|
    ensures forall w :: w in wires ==> Cap(arena[groups[To(w)]].channel) >= wires[w]
    ensures forall f :: f in groups && f !in feeds && f !in Tos(wires) ==>
              exists w :: w in wires && From(w) == f && To(w) in groups && groups[f] == groups[To(w)]
  {
    var slots, groups0 := FeedGroups(feeds, feedOrder);
    forall r | 0 <= r < |groups0|
      ensures groups0[r].fanIn == 0 && Unused(groups0[r].channel)
    {
      assert groups0[r] == groups0[slots[feedOrder[r]]];
    }
    ghost var via;
    groups, arena, via := InitWires(feeds, wires, wireOrder, slots, groups0);
    InitKeysDone(feeds, wires, wireOrder, groups);
    InitCapDone(wires, wireOrder, groups, arena);
    InitViaDone(feeds, wires, wireOrder, groups, via);
  }

  /** Once every wire is seen, the pins with groups are exactly the fed
      pins and the ends of the wires. */
  lemma InitKeysDone(feeds: map<string, seq<Memo>>, wires: map<string, int>, ws: seq<string>, groups: map<string, nat>)
    requires forall w :: w in wires ==> '/' in w
    requires Enumerates(ws, wires.Keys)
    requires forall k :: k in groups ==> k in feeds || k in Froms(wires) || k in Tos(wires)
    requires forall k :: k in feeds ==> k in groups
    requires forall i :: 0 <= i < |ws| ==> From(ws[i]) in groups && To(ws[i]) in groups
    ensures groups.Keys == feeds.Keys + Froms(wires) + Tos(wires)
  {
    forall k | k in Froms(wires) + Tos(wires)
      ensures k in groups
    {
      var w :| w in wires && (k == From(w) || k == To(w));
      var i :| 0 <= i < |ws| && ws[i] == w;
    }
  }

  /** Once every wire is seen, the target of every wire is sized for it. */
  lemma InitCapDone(wires: map<string, int>, ws: seq<string>, groups: map<string, nat>, arena: seq<Group>)
    requires forall w :: w in wires ==> '/' in w
    requires Enumerates(ws, wires.Keys)
    requires forall k :: k in groups ==> groups[k] < |arena|
    requires forall i :: 0 <= i < |ws| ==> To(ws[i]) in groups && Cap(arena[groups[To(ws[i])]].channel) >= wires[ws[i]]
    ensures forall w :: w in wires ==> To(w) in groups && Cap(arena[groups[To(w)]].channel) >= wires[w]
  {
    forall w | w in wires
      ensures To(w) in groups && Cap(arena[groups[To(w)]].channel) >= wires[w]
    {
      var i :| 0 <= i < |ws| && ws[i] == w;
    }
  }

  /** Once every wire is seen, a pin that only sends shares the group of
      the target of a wire leaving it. */
  lemma InitViaDone(feeds: map<string, seq<Memo>>, wires: map<string, int>, ws: seq<string>, groups: map<string, nat>, via: map<string, nat>)
    requires forall w :: w in wires ==> '/' in w
    requires forall i :: 0 <= i < |ws| ==> ws[i] in wires
    requires forall f :: f in groups && f !in feeds && f !in Tos(wires) ==>
               f in via && via[f] < |ws| && From(ws[via[f]]) == f && To(ws[via[f]]) in groups && groups[f] == groups[To(ws[via[f]])]
    ensures forall f :: f in groups && f !in feeds && f !in Tos(wires) ==>
              exists w :: w in wires && From(w) == f && To(w) in groups && groups[f] == groups[To(w)]
  {
    forall f | f in groups && f !in feeds && f !in Tos(wires)
      ensures exists w :: w in wires && From(w) == f && To(w) in groups && groups[f] == groups[To(w)]
    {
      assert ws[via[f]] in wires;
    }
  }

  // ---------------------------------------------------------------------
  // the admin loop

  /** One more message of the trace: a finish adds to the count, any other
      message to the lost memos. */
  lemma TraceStep(trace: seq<AdminMsg>, n: nat)
    requires n < |trace|
    ensures DoneCount(trace[..n + 1]) == DoneCount(trace[..n]) + (if trace[n].Done? then 1 else 0)
    ensures LostOf(trace[..n + 1]) == LostOf(trace[..n]) + (if trace[n].Stray? then [trace[n].m] else [])
  {
    assert trace[..n + 1][..n] == trace[..n];
  }

  /** The admin loop of Run (circuit.go:213-218, 283-296) over the messages
      the admin channel delivers, in order, with `launched` gadgets started:
      each finish counts down, every other message writes one "Lost" line,
      and the loop stops as soon as the count reaches zero (at once when no
      gadget was launched). `finished` is false when the trace runs out
      first: Run is then still waiting on the admin channel. */
  method AdminLoop(launched: nat, trace: seq<AdminMsg>, console: Console) returns (consumed: nat, finished: bool)
    modifies console
    ensures consumed <= |trace|
    ensures console.lines == old(console.lines) + LostReports(LostOf(trace[..consumed]))
    ensures finished <==> DoneCount(trace[..consumed]) == launched
    ensures forall m :: 0 <= m < consumed ==> DoneCount(trace[..m]) < launched
    ensures !finished ==> consumed == |trace|
    ensures finished ==> |LostOf(trace[..consumed])| == consumed - launched
  {
    var count: int := launched;
    consumed := 0;
    while count > 0
      invariant consumed <= |trace|
      invariant count >= 0 && count == launched - DoneCount(trace[..consumed])
      invariant console.lines == old(console.lines) + LostReports(LostOf(trace[..consumed]))
      invariant forall m :: 0 <= m < consumed ==> DoneCount(trace[..m]) < launched
      decreases |trace| - consumed
    {
      if consumed == |trace| {
        assert trace[..consumed] == trace;
        return consumed, false;
      }
      var m := trace[consumed];
      TraceStep(trace, consumed);
      if m.Done? {
        assert LostOf(trace[..consumed + 1]) == LostOf(trace[..consumed]);
        count := count - 1;
      } else {
        assert LostOf(trace[..consumed + 1]) == LostOf(trace[..consumed]) + [m.m];
        LostReportsAppend(LostOf(trace[..consumed]), [m.m]);
        assert LostReports([m.m]) == [LostReport(m.m)];
        console.lines := console.lines + [LostReport(m.m)];
      }
      consumed := consumed + 1;
    }
    TraceSplits(trace[..consumed]);
    finished := true;
  }
}
