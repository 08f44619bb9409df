/** The value-level vocabulary of circuit.go: wire keys, the `ginfo`
    records of initPins, wire groups and how their channels are sized, pin
    kinds and bindings, and the messages the admin loop of Run receives. */
module CircuitSpec {
  import opened Runtime
  import opened GoStrings

  // ---------------------------------------------------------------------
  // wire keys

  /** The key under which Connect stores a wire: from+"/"+to. */
  function WireKey(from: string, to: string): (key: string)
    ensures '/' in key
  {
    assert (from + "/" + to)[|from|] == '/';
    from + "/" + to
  }

  /** v[0] of strings.Split(wpair, "/"): the sending pin of a wire. */
  function From(key: string): (f: string)
    ensures '/' !in key ==> f == key
  {
    Split(key, '/')[0]
  }

  /** v[1] of strings.Split(wpair, "/"): the receiving pin of a wire. The
      index is in range only when the key holds a '/'. */
  function To(key: string): (t: string)
    requires '/' in key
    ensures '/' !in t
  {
    SplitPiecesFree(key, '/');
    Split(key, '/')[1]
  }

  /** Neither end of a wire key holds a '/'. */
  lemma WireEndsPlain(key: string)
    ensures '/' !in From(key)
    ensures '/' in key ==> '/' !in To(key)
  {
    SplitPiecesFree(key, '/');
  }

  /** Every key that Connect stores holds a '/', and splitting it gives
      back both pin names when neither holds a '/'. */
  lemma WireKeyRoundTrip(from: string, to: string)
    requires '/' !in from && '/' !in to
    ensures '/' in WireKey(from, to)
    ensures From(WireKey(from, to)) == from && To(WireKey(from, to)) == to
  {
    var key := WireKey(from, to);
    assert key[|from|] == '/';
    assert [from, to][1..] == [to];
    assert Join([from, to], '/') == key;
    SplitJoin([from, to], '/');
  }

  // ---------------------------------------------------------------------
  // the ginfo records of initPins

  /** ginfo: the largest capacity and the total feed of a set of pins that
      wires join together. Records live in an arena; `gmap` maps a pin to
      the index of its record, so two pins share a record exactly when
      they map to the same index. */
  datatype GInfo = GInfo(capa: int, feed: int)

  /** The merge loop of circuit.go:58-65 as written, over the keys in the
      order the range visits them: a key moves to `dest` when its record is
      the one gmap[to] points at NOW, re-read at every step, and the largest
      capacity among the records it finds there is tracked in `wcap`
      (lines 60-62). Once `to` itself has moved, the keys after it that
      shared its old record no longer match and stay where they were. The
      result is the new gmap and the tracked capacity. */
  function MergeAsWritten(gmap: map<string, nat>, infos: seq<GInfo>, keys: seq<string>, to: string, dest: nat, wcap: int)
    : (r: (map<string, nat>, int))
    requires to in gmap && dest < |infos|
    requires forall k :: k in gmap ==> gmap[k] < |infos|
    ensures r.0.Keys == gmap.Keys
    ensures forall k :: k in r.0 ==> r.0[k] < |infos|
    ensures r.1 >= wcap
    decreases |keys|
  {
    if keys == [] then (gmap, wcap)
    else
      var k := keys[0];
      if k in gmap && gmap[k] == gmap[to] then
        var w := if infos[gmap[k]].capa > wcap then infos[gmap[k]].capa else wcap;
        MergeAsWritten(gmap[k := dest], infos, keys[1..], to, dest, w)
      else
        MergeAsWritten(gmap, infos, keys[1..], to, dest, wcap)
  }

  /** Once `to` points at `dest`, the rest of the merge loop moves nothing;
      it can only raise the tracked capacity to dest's own. */
  lemma {:induction false} MergeAsWrittenSettled(gmap: map<string, nat>, infos: seq<GInfo>, keys: seq<string>, to: string, dest: nat, wcap: int)
    requires to in gmap && dest < |infos| && gmap[to] == dest
    requires forall k :: k in gmap ==> gmap[k] < |infos|
    ensures MergeAsWritten(gmap, infos, keys, to, dest, wcap).0 == gmap
    ensures var w := MergeAsWritten(gmap, infos, keys, to, dest, wcap).1;
            w == wcap || w == infos[dest].capa
    decreases |keys|
  {
    if keys != [] {
      var k := keys[0];
      if k in gmap && gmap[k] == gmap[to] {
        assert gmap[k := dest] == gmap;
        var w := if infos[gmap[k]].capa > wcap then infos[gmap[k]].capa else wcap;
        MergeAsWrittenSettled(gmap, infos, keys[1..], to, dest, w);
      } else {
        MergeAsWrittenSettled(gmap, infos, keys[1..], to, dest, wcap);
      }
    }
  }

  /** What the merge loop as written does when the range first visits `to`
      at position t and to's record differs from `dest`: exactly the keys
      that shared to's record and come no later than `to` move to `dest`,
      every other key keeps its record, and the tracked capacity covers
      to's old record and is one of wcap, to's old capacity or dest's. */
  lemma {:induction false} MergeAsWrittenMoves(gmap: map<string, nat>, infos: seq<GInfo>, keys: seq<string>, to: string, dest: nat, wcap: int, t: nat)
    requires to in gmap && dest < |infos| && gmap[to] != dest
    requires forall k :: k in gmap ==> gmap[k] < |infos|
    requires t < |keys| && keys[t] == to && to !in keys[..t]
    ensures var m := MergeAsWritten(gmap, infos, keys, to, dest, wcap).0;
            forall k :: k in gmap ==> m[k] == if gmap[k] == gmap[to] && k in keys[..t + 1] then dest else gmap[k]
    ensures var w := MergeAsWritten(gmap, infos, keys, to, dest, wcap).1;
            w >= infos[gmap[to]].capa && (w == wcap || w == infos[gmap[to]].capa || w == infos[dest].capa)
    decreases t
  {
    var k := keys[0];
    if t == 0 {
      assert k == to && keys[..1] == [to];
      var w := if infos[gmap[to]].capa > wcap then infos[gmap[to]].capa else wcap;
      MergeAsWrittenSettled(gmap[to := dest], infos, keys[1..], to, dest, w);
    } else {
      assert keys[1..][t - 1] == to && keys[1..][..t - 1] == keys[1..t];
      assert keys[..t + 1] == [k] + keys[1..][..t];
      if k in gmap && gmap[k] == gmap[to] {
        var w := if infos[gmap[k]].capa > wcap then infos[gmap[k]].capa else wcap;
        MergeAsWrittenMoves(gmap[k := dest], infos, keys[1..], to, dest, w, t - 1);
      } else {
        MergeAsWrittenMoves(gmap, infos, keys[1..], to, dest, wcap, t - 1);
      }
    }
  }

  /** Pins p and q share a record (say after wire p/q) and r and s share
      another (after wire r/s). For wire r/q, a range that visits q first
      moves q to r's record but leaves p behind, although p and q were
      joined: the two pins of wire p/q no longer share a record. */
  lemma MergeAsWrittenStrandsPin(infos: seq<GInfo>, wcap: int)
    requires |infos| == 2
    ensures var g := map["p" := 0, "q" := 0, "r" := 1, "s" := 1];
            var m := MergeAsWritten(g, infos, ["q", "p", "r", "s"], "q", g["r"], wcap).0;
            m["q"] == 1 && m["p"] == 0 && m["p"] != m["q"]
  {
    var g := map["p" := 0, "q" := 0, "r" := 1, "s" := 1];
    var ks: seq<string> := ["q", "p", "r", "s"];
    assert ks[0] == "q" && ks[..0] == [] && ks[..1] == ["q"];
    assert g["q"] == 0 && g["p"] == 0 && "p" !in ks[..1];
    MergeAsWrittenMoves(g, infos, ks, "q", 1, wcap, 0);
  }

  /** The first position of x in s. */
  lemma {:induction false} FirstIndexOf<T>(s: seq<T>, x: T) returns (t: nat)
    requires x in s
    ensures t < |s| && s[t] == x && x !in s[..t]
  {
    if s[0] == x {
      t := 0;
    } else {
      var t' := FirstIndexOf(s[1..], x);
      t := t' + 1;
      assert s[..t] == [s[0]] + s[1..][..t'];
    }
  }

  /** Lines 57-66 as written: when to's record differs from from's, the
      merge loop runs over the keys in `order`; the result is the new gmap
      and the tracked capacity. */
  function JoinAsWritten(gmap: map<string, nat>, infos: seq<GInfo>, from: string, to: string, wcap: int, order: seq<string>)
    : (r: (map<string, nat>, int))
    requires from in gmap && to in gmap
    requires forall k :: k in gmap ==> gmap[k] < |infos|
    ensures r.0.Keys == gmap.Keys
    ensures forall k :: k in r.0 ==> r.0[k] < |infos|
  {
    if gmap[to] != gmap[from] then MergeAsWritten(gmap, infos, order, to, gmap[from], wcap) else (gmap, wcap)
  }

  /** After the merge as written, when the range visits `to`: both ends
      point at from's record, from's record is unmoved, the tracked
      capacity covers the wire's and, when the records differed, to's old
      record's, and every other pin keeps its record or has joined
      from's. */
  lemma JoinAsWrittenEnds(gmap: map<string, nat>, infos: seq<GInfo>, from: string, to: string, wcap: int, order: seq<string>)
    requires from in gmap && to in gmap
    requires forall k :: k in gmap ==> gmap[k] < |infos|
    requires to in order
    ensures var r := JoinAsWritten(gmap, infos, from, to, wcap, order);
            && r.0[from] == r.0[to] == gmap[from]
            && r.1 >= wcap
            && (gmap[to] != gmap[from] ==> r.1 >= infos[gmap[to]].capa)
            && (forall k :: k in gmap ==> r.0[k] == gmap[k] || r.0[k] == gmap[from])
  {
    if gmap[to] != gmap[from] {
      var t := FirstIndexOf(order, to);
      MergeAsWrittenMoves(gmap, infos, order, to, gmap[from], wcap, t);
      assert order[..t + 1][t] == to;
    }
  }

  /** One wire of the first loop of initPins as written (circuit.go:51-69):
      `from` gets a new record of capacity `wcap` if it has none, `to`
      shares from's if it has none, the records are merged as written when
      they differ (the range visiting the keys in `order`), and to's record
      is raised to the tracked capacity. */
  function WireAsWritten(gmap: map<string, nat>, infos: seq<GInfo>, from: string, to: string, wcap: int, order: seq<string>)
    : (r: (map<string, nat>, seq<GInfo>))
    requires forall k :: k in gmap ==> gmap[k] < |infos|
    ensures r.0.Keys == gmap.Keys + {from, to}
    ensures |r.1| == |infos| + (if from in gmap then 0 else 1)
    ensures forall k :: k in r.0 ==> r.0[k] < |r.1|
  {
    var g1 := if from in gmap then gmap else gmap[from := |infos|];
    var i1 := if from in gmap then infos else infos + [GInfo(wcap, 0)];
    var g2 := if to in g1 then g1 else g1[to := g1[from]];
    var joined := JoinAsWritten(g2, i1, from, to, wcap, order);
    var rec := joined.0[to];
    (joined.0, if joined.1 > i1[rec].capa then i1[rec := i1[rec].(capa := joined.1)] else i1)
  }

  /** For every wire, as written, when the range visits `to`: both ends
      share from's record, whose capacity is at least the wire's and at
      least what either end's record held before; no other record changes;
      and every other pin keeps its record or has joined theirs. */
  lemma WireAsWrittenJoins(gmap: map<string, nat>, infos: seq<GInfo>, from: string, to: string, wcap: int, order: seq<string>)
    requires forall k :: k in gmap ==> gmap[k] < |infos|
    requires to in order
    ensures var r := WireAsWritten(gmap, infos, from, to, wcap, order);
            var g, i := r.0, r.1;
            && g[from] == g[to] == (if from in gmap then gmap[from] else |infos|)
            && i[g[to]].capa >= wcap
            && (from in gmap ==> i[g[to]].capa >= infos[gmap[from]].capa)
            && (to in gmap ==> i[g[to]].capa >= infos[gmap[to]].capa)
            && (forall r :: 0 <= r < |infos| && r != g[to] ==> i[r] == infos[r])
            && (forall k :: k in gmap ==> g[k] == gmap[k] || g[k] == g[to])
  {
    var g1 := if from in gmap then gmap else gmap[from := |infos|];
    var i1 := if from in gmap then infos else infos + [GInfo(wcap, 0)];
    var g2 := if to in g1 then g1 else g1[to := g1[from]];
    assert forall k :: k in gmap ==> g2[k] == gmap[k] || k == from || k == to;
    assert forall r :: 0 <= r < |infos| ==> i1[r] == infos[r];
    JoinAsWrittenEnds(g2, i1, from, to, wcap, order);
  }

  /** The feed messages of the pins in `order` whose record is `r`. */
  function FeedTotal(order: seq<string>, feeds: map<string, seq<Memo>>, gmap: map<string, nat>, r: nat): nat {
    if order == [] then 0
    else
      var k := order[|order| - 1];
      FeedTotal(order[..|order| - 1], feeds, gmap, r)
      + (if k in feeds && k in gmap && gmap[k] == r then |feeds[k]| else 0)
  }

  /** Adding one more pin to the order adds its feed length, if its record
      is `r`. */
  lemma FeedTotalStep(order: seq<string>, i: nat, feeds: map<string, seq<Memo>>, gmap: map<string, nat>, r: nat)
    requires i < |order|
    ensures FeedTotal(order[..i + 1], feeds, gmap, r)
         == FeedTotal(order[..i], feeds, gmap, r)
            + (if order[i] in feeds && order[i] in gmap && gmap[order[i]] == r then |feeds[order[i]]| else 0)
  {
    assert order[..i + 1][..i] == order[..i];
  }

  /** The total only looks at the records of the pins in `order`. */
  lemma {:induction false} FeedTotalFrame(order: seq<string>, feeds: map<string, seq<Memo>>, g1: map<string, nat>, g2: map<string, nat>, r: nat)
    requires forall k :: k in order ==> (k in g1 <==> k in g2)
    requires forall k :: k in order && k in g1 ==> g1[k] == g2[k]
    ensures FeedTotal(order, feeds, g1, r) == FeedTotal(order, feeds, g2, r)
  {
    if order != [] {
      var init := order[..|order| - 1];
      assert forall k :: k in init ==> k in order;
      FeedTotalFrame(init, feeds, g1, g2, r);
    }
  }

  /** A record that no pin of the order points at has a total of 0. */
  lemma {:induction false} FeedTotalUnused(order: seq<string>, feeds: map<string, seq<Memo>>, gmap: map<string, nat>, r: nat)
    requires forall k :: k in order && k in gmap ==> gmap[k] != r
    ensures FeedTotal(order, feeds, gmap, r) == 0
  {
    if order != [] {
      var init := order[..|order| - 1];
      assert forall k :: k in init ==> k in order;
      FeedTotalUnused(init, feeds, gmap, r);
    }
  }

  /** A fed pin of the order brings its whole feed to its record's total. */
  lemma {:induction false} FeedTotalCounts(order: seq<string>, feeds: map<string, seq<Memo>>, gmap: map<string, nat>, k: string)
    requires k in order && k in feeds && k in gmap
    ensures FeedTotal(order, feeds, gmap, gmap[k]) >= |feeds[k]|
  {
    var init := order[..|order| - 1];
    if order[|order| - 1] != k {
      var i :| 0 <= i < |order| && order[i] == k;
      assert init[i] == k;
      FeedTotalCounts(init, feeds, gmap, k);
    }
  }

  // ---------------------------------------------------------------------
  // wire groups

  /** group: the number of output pins bound to it and its channel, which
      is nil (`None`) until something sizes it. */
  datatype Group = Group(fanIn: int, channel: Option<Chan>)

  /** cap(ch), which is 0 for a nil channel. */
  function Cap(ch: Option<Chan>): (c: nat)
    ensures ch.Some? ==> c == ch.value.capacity
    ensures ch.None? ==> c == 0
  {
    if ch.Some? then ch.value.capacity else 0
  }

  /** The pins that wires leave. */
  function Froms(wires: map<string, int>): set<string>
    requires forall w :: w in wires ==> '/' in w
  {
    set w | w in wires :: From(w)
  }

  /** The pins that wires enter. */
  function Tos(wires: map<string, int>): set<string>
    requires forall w :: w in wires ==> '/' in w
  {
    set w | w in wires :: To(w)
  }

  /** The index of the last of the first `n` wires of `ws` that leaves
      pin `f`, or -1 when none does. */
  function LastFrom(ws: seq<string>, n: nat, f: string): (i: int)
    requires n <= |ws|
    requires forall j :: 0 <= j < |ws| ==> '/' in ws[j]
    ensures -1 <= i < n
    ensures i >= 0 ==> From(ws[i]) == f
  {
    if n == 0 then -1
    else if From(ws[n - 1]) == f then n - 1
    else LastFrom(ws, n - 1, f)
  }

  /** LastFrom finds the last such wire: none after it leaves `f`, and it
      is -1 exactly when none of the wires leaves `f`. */
  lemma {:induction false} LastFromIsLast(ws: seq<string>, n: nat, f: string)
    requires n <= |ws|
    requires forall j :: 0 <= j < |ws| ==> '/' in ws[j]
    ensures forall j :: LastFrom(ws, n, f) < j < n ==> From(ws[j]) != f
    ensures LastFrom(ws, n, f) == -1 <==> forall j :: 0 <= j < n ==> From(ws[j]) != f
  {
    if n > 0 && From(ws[n - 1]) != f {
      LastFromIsLast(ws, n - 1, f);
    }
  }

  /** LastFrom is the index of a wire leaving `f` with none after it. */
  lemma {:induction false} LastFromAt(ws: seq<string>, n: nat, f: string, i: nat)
    requires i < n <= |ws|
    requires forall j :: 0 <= j < |ws| ==> '/' in ws[j]
    requires From(ws[i]) == f
    requires forall j :: i < j < n ==> From(ws[j]) != f
    ensures LastFrom(ws, n, f) == i
  {
    if i < n - 1 {
      LastFromAt(ws, n - 1, f, i);
    }
  }

  /** The group `g` that Run makes for the inbound pin `k`: no output
      bound to it yet, and a fresh, empty, open channel whose capacity is
      the largest of k's feed length and the capacities of the wires into
      k; a nil channel when k is not fed and no wire into it has a
      positive capacity. */
  ghost predicate SizedPin(g: Group, k: string, feeds: map<string, seq<Memo>>, wires: map<string, int>)
    requires forall w :: w in wires ==> '/' in w
  {
    && g.fanIn == 0
    && (g.channel.None? <==> k !in feeds && forall w :: w in wires && To(w) == k ==> wires[w] <= 0)
    && (g.channel.Some? ==>
          var ch := g.channel.value;
          && ch.queue == [] && !ch.closed
          && (k in feeds ==> ch.capacity >= |feeds[k]|)
          && (forall w :: w in wires && To(w) == k ==> ch.capacity >= wires[w])
          && ((k in feeds && ch.capacity == |feeds[k]|) || exists w :: w in wires && To(w) == k && ch.capacity == wires[w]))
  }

  /** SizedPin, counting only the first `n` wires of `ws`. */
  ghost predicate SizedUpTo(g: Group, k: string, feeds: map<string, seq<Memo>>, wires: map<string, int>, ws: seq<string>, n: nat)
    requires n <= |ws|
    requires forall i :: 0 <= i < |ws| ==> '/' in ws[i] && ws[i] in wires
  {
    && g.fanIn == 0
    && (g.channel.None? <==> k !in feeds && forall i :: 0 <= i < n && To(ws[i]) == k ==> wires[ws[i]] <= 0)
    && (g.channel.Some? ==>
          var ch := g.channel.value;
          && ch.queue == [] && !ch.closed
          && (k in feeds ==> ch.capacity >= |feeds[k]|)
          && (forall i :: 0 <= i < n && To(ws[i]) == k ==> ch.capacity >= wires[ws[i]])
          && ((k in feeds && ch.capacity == |feeds[k]|) || exists i :: 0 <= i < n && To(ws[i]) == k && ch.capacity == wires[ws[i]]))
  }

  /** Counting every wire of an enumeration is counting every wire. */
  lemma SizedUpToAll(g: Group, k: string, feeds: map<string, seq<Memo>>, wires: map<string, int>, ws: seq<string>)
    requires forall w :: w in wires ==> '/' in w
    requires Enumerates(ws, wires.Keys)
    requires SizedUpTo(g, k, feeds, wires, ws, |ws|)
    ensures SizedPin(g, k, feeds, wires)
  {
    forall w | w in wires && To(w) == k
      ensures g.channel.None? ==> wires[w] <= 0
      ensures g.channel.Some? ==> g.channel.value.capacity >= wires[w]
    {
      var i :| 0 <= i < |ws| && ws[i] == w;
    }
    if g.channel.Some? && !(k in feeds && g.channel.value.capacity == |feeds[k]|) {
      var i :| 0 <= i < |ws| && To(ws[i]) == k && g.channel.value.capacity == wires[ws[i]];
      assert ws[i] in wires;
    }
  }

  // ---------------------------------------------------------------------
  // pins and bindings

  /** The dynamic type of a pin value: flow.Input, flow.Output, or the
      string that initPins stores for a label. */
  datatype PinKind = InputPin | OutputPin | LabelPin(internal: string)

  /** What Run binds a pin to: the channel of a group, the pre-closed
      nullChan, or the admin channel of the circuit. */
  datatype Binding = Bound(group: nat) | NullChan | AdminSink

  /** The full name of a gadget's pin: gadget name, '.', pin name. */
  function PinName(gadget: string, pin: string): string {
    gadget + "." + pin
  }

  /** Different pins of one gadget have different full names. */
  lemma PinNameInjective(gadget: string, p1: string, p2: string)
    requires PinName(gadget, p1) == PinName(gadget, p2)
    ensures p1 == p2
  {
    var n := |gadget| + 1;
    assert p1 == PinName(gadget, p1)[n..];
    assert p2 == PinName(gadget, p2)[n..];
  }

  /** The binding of every input and output pin of a gadget: an input gets
      the channel of its inbound group or nullChan, an output the channel
      of its outbound group or the admin sink; a label pin gets none. */
  function Wiring(gadget: string, pins: map<string, PinKind>, inbound: map<string, nat>, outbound: map<string, nat>): (b: map<string, Binding>)
    ensures b.Keys == set k | k in pins && !pins[k].LabelPin?
    ensures forall k :: k in pins && pins[k] == InputPin ==>
              b[k] == (if PinName(gadget, k) in inbound then Bound(inbound[PinName(gadget, k)]) else NullChan)
    ensures forall k :: k in pins && pins[k] == OutputPin ==>
              b[k] == (if PinName(gadget, k) in outbound then Bound(outbound[PinName(gadget, k)]) else AdminSink)
  {
    map k | k in pins && !pins[k].LabelPin? ::
      if pins[k] == InputPin then
        (if PinName(gadget, k) in inbound then Bound(inbound[PinName(gadget, k)]) else NullChan)
      else
        (if PinName(gadget, k) in outbound then Bound(outbound[PinName(gadget, k)]) else AdminSink)
  }

  /** The output pins of a gadget whose outbound group is `r`. */
  function OutputsInto(gadget: string, pins: map<string, PinKind>, outbound: map<string, nat>, r: nat): set<string> {
    set k | k in pins && pins[k] == OutputPin && PinName(gadget, k) in outbound && outbound[PinName(gadget, k)] == r
  }

  /** The inbound groups of a gadget that Run closes: keyed with the
      gadget's name and a '.', and with no output pin bound to them. */
  function Doomed(gadget: string, inbound: map<string, nat>, arena: seq<Group>): set<string>
    requires forall k :: k in inbound ==> inbound[k] < |arena|
  {
    set k | k in inbound && HasPrefix(k, gadget + ".") && arena[inbound[k]].fanIn == 0
  }

  /** Binding more producers never dooms another pin: when every group's
      fanIn has only grown from a count of at least 0, the doomed pins are a subset of those before,
      and a pin whose group gained a producer is no longer doomed. */
  lemma DoomedShrinks(gadget: string, inbound: map<string, nat>, arena: seq<Group>, later: seq<Group>)
    requires forall k :: k in inbound ==> inbound[k] < |arena|
    requires |later| == |arena|
    requires forall i :: 0 <= i < |arena| ==> 0 <= arena[i].fanIn <= later[i].fanIn
    ensures Doomed(gadget, inbound, later) <= Doomed(gadget, inbound, arena)
    ensures forall k :: k in inbound && later[inbound[k]].fanIn > arena[inbound[k]].fanIn ==> k !in Doomed(gadget, inbound, later)
  {
    forall k | k in Doomed(gadget, inbound, later)
      ensures k in Doomed(gadget, inbound, arena)
    {
      assert 0 <= arena[inbound[k]].fanIn <= later[inbound[k]].fanIn;
    }
  }

  // ---------------------------------------------------------------------
  // the admin channel

  /** What the admin channel of Run receives: the adminMsg a gadget sends
      when it finishes, or a memo sent on an output pin left unconnected. */
  datatype AdminMsg = Done(gadget: string) | Stray(m: Memo)

  /** The number of finished gadgets reported in a trace. */
  function DoneCount(trace: seq<AdminMsg>): (n: nat)
    ensures n <= |trace|
  {
    if trace == [] then 0
    else DoneCount(trace[..|trace| - 1]) + (if trace[|trace| - 1].Done? then 1 else 0)
  }

  /** The stray memos of a trace, in the order received. */
  function LostOf(trace: seq<AdminMsg>): seq<Memo> {
    if trace == [] then []
    else LostOf(trace[..|trace| - 1]) + (if trace[|trace| - 1].Stray? then [trace[|trace| - 1].m] else [])
  }

  /** Every message of a trace is either a finish or a lost memo. */
  lemma {:induction false} TraceSplits(trace: seq<AdminMsg>)
    ensures DoneCount(trace) + |LostOf(trace)| == |trace|
  {
    if trace != [] {
      TraceSplits(trace[..|trace| - 1]);
    }
  }
}
