/**
 * Group membership (`gitosis/group.py`): the groups a user belongs to, in
 * the order the recursive generator yields them, followed by `@all`.
 *
 * The generator records visited groups in a set it never consults, so it
 * recurses without end on a cycle of groups or on any group that lists
 * `@all`. The model bounds the depth of recursion by `fuel`: a trace that
 * is not `complete` is the part of the output produced before the bound was
 * hit, and the source would go on from there.
 */
module Group {
  import opened Outcomes
  import opened Dicts
  import opened Config

  /** What the generator yields, as far as the depth bound lets it run. */
  datatype Trace = Trace(items: seq<string>, complete: bool)

  /** Group `g` has a non-empty member list that names `u` or `@all`; a
      group whose list cannot be read does not count. */
  predicate Lists(groups: Dict<Value>, g: string, u: string) {
    var m := Members(groups, g);
    m.Ok? && m.value.Some? && m.value.value != [] && (u in m.value.value || "@all" in m.value.value)
  }

  /** `_getMembership(config, u)` scanning the groups `gs`, in order: each
      group listing `u` is yielded, then everything the recursion on that
      group yields, before the scan moves on. */
  function Scan(groups: Dict<Value>, gs: seq<string>, u: string, fuel: nat): Trace
    decreases fuel, |gs|
  {
    if gs == [] then Trace([], true)
    else if !Lists(groups, gs[0], u) then Scan(groups, gs[1..], u, fuel)
    else if fuel == 0 then Trace([gs[0]], false)
    else
      var sub := Scan(groups, Keys(groups), gs[0], fuel - 1);
      if !sub.complete then Trace([gs[0]] + sub.items, false)
      else
        var rest := Scan(groups, gs[1..], u, fuel);
        Trace([gs[0]] + sub.items + rest.items, rest.complete)
  }

  /** `getMembership(config, user)`: the scan over all groups, then `@all`
      once the scan has finished. */
  function Membership(groups: Dict<Value>, user: string, fuel: nat): (r: Trace)
    ensures r.complete ==> r.items != [] && r.items[|r.items| - 1] == "@all"
    ensures r.complete == Scan(groups, Keys(groups), user, fuel).complete
  {
    var t := Scan(groups, Keys(groups), user, fuel);
    if t.complete then Trace(t.items + ["@all"], true) else t
  }

  /** Every one of `items` is listed as containing `u`, or as containing
      an item before it. */
  predicate JustifiedBy(listed: (string, string) -> bool, items: seq<string>, u: string) {
    forall i :: 0 <= i < |items| ==>
      listed(items[i], u) || exists j :: 0 <= j < i && listed(items[i], items[j])
  }

  /** Every yielded group lists the queried name (or `@all`), or lists a
      group yielded before it. */
  predicate Justified(groups: Dict<Value>, items: seq<string>, u: string) {
    JustifiedBy((a, b) => Lists(groups, a, b), items, u)
  }

  lemma JustifiedConcat(listed: (string, string) -> bool, g: string, sub: seq<string>, rest: seq<string>, u: string)
    requires listed(g, u)
    requires JustifiedBy(listed, sub, g) && JustifiedBy(listed, rest, u)
    ensures JustifiedBy(listed, [g] + sub + rest, u)
  {
    var items := [g] + sub + rest;
    forall i | 0 <= i < |items|
      ensures listed(items[i], u) || exists j :: 0 <= j < i && listed(items[i], items[j])
    {
      if 1 <= i <= |sub| {
        assert items[i] == sub[i - 1];
        if !listed(sub[i - 1], g) {
          var j :| 0 <= j < i - 1 && listed(sub[i - 1], sub[j]);
          assert items[j + 1] == sub[j];
        } else {
          assert items[0] == g;
        }
      } else if i > |sub| {
        assert items[i] == rest[i - 1 - |sub|];
        if !listed(rest[i - 1 - |sub|], u) {
          var j :| 0 <= j < i - 1 - |sub| && listed(rest[i - 1 - |sub|], rest[j]);
          assert items[j + 1 + |sub|] == rest[j];
        }
      }
    }
  }

  /** Soundness: the scan yields only groups that are there and are
      justified by the user or by a group yielded earlier. */
  lemma {:induction false} ScanSound(groups: Dict<Value>, gs: seq<string>, u: string, fuel: nat)
    ensures Justified(groups, Scan(groups, gs, u, fuel).items, u)
    ensures forall g :: g in Scan(groups, gs, u, fuel).items ==> g in groups.entries
    decreases fuel, |gs|
  {
    if gs != [] {
      var g := gs[0];
      if !Lists(groups, g, u) {
        ScanSound(groups, gs[1..], u, fuel);
      } else if fuel > 0 {
        var sub := Scan(groups, Keys(groups), g, fuel - 1);
        ScanSound(groups, Keys(groups), g, fuel - 1);
        if sub.complete {
          ScanSound(groups, gs[1..], u, fuel);
          JustifiedConcat((a, b) => Lists(groups, a, b), g, sub.items, Scan(groups, gs[1..], u, fuel).items, u);
        } else {
          JustifiedConcat((a, b) => Lists(groups, a, b), g, sub.items, [], u);
          assert [g] + sub.items + [] == [g] + sub.items;
        }
      }
    }
  }

  /** A finished scan has yielded every scanned group that lists `u`. */
  lemma {:induction false} ScanFinds(groups: Dict<Value>, gs: seq<string>, u: string, fuel: nat)
    ensures Scan(groups, gs, u, fuel).complete ==>
      forall i :: 0 <= i < |gs| && Lists(groups, gs[i], u) ==> gs[i] in Scan(groups, gs, u, fuel).items
    decreases fuel, |gs|
  {
    if gs != [] {
      var t := Scan(groups, gs, u, fuel);
      if !Lists(groups, gs[0], u) {
        ScanFinds(groups, gs[1..], u, fuel);
        if t.complete {
          forall i | 0 <= i < |gs| && Lists(groups, gs[i], u) ensures gs[i] in t.items {
            assert gs[i] == gs[1..][i - 1];
          }
        }
      } else if fuel > 0 && Scan(groups, Keys(groups), gs[0], fuel - 1).complete {
        var sub := Scan(groups, Keys(groups), gs[0], fuel - 1);
        var rest := Scan(groups, gs[1..], u, fuel);
        ScanFinds(groups, gs[1..], u, fuel);
        if t.complete {
          forall i | 0 <= i < |gs| && Lists(groups, gs[i], u) ensures gs[i] in t.items {
            if i > 0 {
              assert gs[i] == gs[1..][i - 1];
              assert gs[i] in rest.items;
            }
            assert t.items == [gs[0]] + sub.items + rest.items;
          }
        }
      }
    }
  }

  /** `a` is an initial part of `b`. */
  predicate Prefix(a: seq<string>, b: seq<string>) {
    |a| <= |b| && b[..|a|] == a
  }

  lemma PrefixConcat(x: seq<string>, a: seq<string>, b: seq<string>, y: seq<string>)
    requires Prefix(a, b)
    ensures Prefix(x + a, x + b + y)
  {
    assert (x + b + y)[..|x + a|] == x + (b + y)[..|a|];
    assert (b + y)[..|a|] == b[..|a|];
  }

  /** More depth only lets the generator go further: the trace with less
      fuel is an initial part of the trace with more, and a finished scan
      is unchanged. */
  lemma {:induction false} ScanGrows(groups: Dict<Value>, gs: seq<string>, u: string, fuel: nat)
    ensures Prefix(Scan(groups, gs, u, fuel).items, Scan(groups, gs, u, fuel + 1).items)
    ensures Scan(groups, gs, u, fuel).complete ==> Scan(groups, gs, u, fuel + 1) == Scan(groups, gs, u, fuel)
    decreases fuel, |gs|
  {
    if gs != [] {
      var g := gs[0];
      var t, t' := Scan(groups, gs, u, fuel), Scan(groups, gs, u, fuel + 1);
      if !Lists(groups, g, u) {
        ScanGrows(groups, gs[1..], u, fuel);
      } else {
        var sub' := Scan(groups, Keys(groups), g, fuel);
        if fuel == 0 {
          if sub'.complete {
            PrefixConcat([g], [], sub'.items, Scan(groups, gs[1..], u, 1).items);
          } else {
            PrefixConcat([g], [], sub'.items, []);
          }
        } else {
          var sub := Scan(groups, Keys(groups), g, fuel - 1);
          ScanGrows(groups, Keys(groups), g, fuel - 1);
          if sub.complete {
            assert sub' == sub;
            ScanGrows(groups, gs[1..], u, fuel);
            PrefixConcat([g] + sub.items, Scan(groups, gs[1..], u, fuel).items, Scan(groups, gs[1..], u, fuel + 1).items, []);
          } else if sub'.complete {
            PrefixConcat([g], sub.items, sub'.items, Scan(groups, gs[1..], u, fuel + 1).items);
          } else {
            PrefixConcat([g], sub.items, sub'.items, []);
          }
        }
      }
    }
  }

  /** Termination when the group graph is ranked: a group is only ever
      listed in a group of lower rank. A group listing `@all` lists itself,
      so no ranking allows one. Depth beyond the user's rank suffices. */
  lemma {:induction false} ScanTerminates(groups: Dict<Value>, gs: seq<string>, u: string, fuel: nat, rank: string -> nat)
    requires forall g, x :: Lists(groups, g, x) ==> rank(g) < rank(x)
    requires fuel > rank(u)
    ensures Scan(groups, gs, u, fuel).complete
    decreases fuel, |gs|
  {
    if gs != [] {
      if Lists(groups, gs[0], u) {
        ScanTerminates(groups, Keys(groups), gs[0], fuel - 1, rank);
      }
      ScanTerminates(groups, gs[1..], u, fuel, rank);
    }
  }

  lemma MembershipTerminates(groups: Dict<Value>, user: string, fuel: nat, rank: string -> nat)
    requires forall g, x :: Lists(groups, g, x) ==> rank(g) < rank(x)
    requires fuel > rank(user)
    ensures Membership(groups, user, fuel).complete
    ensures Membership(groups, user, fuel).items[|Membership(groups, user, fuel).items| - 1] == "@all"
  {
    ScanTerminates(groups, Keys(groups), user, fuel, rank);
  }

  /** Some group of `loop` lists `c`. */
  predicate ListedIn(groups: Dict<Value>, loop: set<string>, c: string) {
    exists h :: h in loop && h in Keys(groups) && Lists(groups, h, c)
  }

  /** Every group of `loop` is listed by a group of `loop`. */
  predicate Closed(groups: Dict<Value>, loop: set<string>) {
    forall c {:trigger ListedIn(groups, loop, c)} :: c in loop ==> ListedIn(groups, loop, c)
  }

  /** Divergence: when the scan meets a group of a set `loop` in which every
      group is listed by a group of the set, it never finishes, however
      deep it may go. */
  lemma {:induction false} ScanDiverges(groups: Dict<Value>, loop: set<string>, gs: seq<string>, x: string, h: string, fuel: nat)
    requires Closed(groups, loop)
    requires h in loop && h in gs && Lists(groups, h, x)
    ensures !Scan(groups, gs, x, fuel).complete
    decreases fuel, |gs|
  {
    var g := gs[0];
    if !Lists(groups, g, x) {
      assert h in gs[1..];
      ScanDiverges(groups, loop, gs[1..], x, h, fuel);
    } else if fuel > 0 {
      var sub := Scan(groups, Keys(groups), g, fuel - 1);
      if sub.complete {
        if h == g {
          assert ListedIn(groups, loop, g);
          var h' :| h' in loop && h' in Keys(groups) && Lists(groups, h', g);
          ScanDiverges(groups, loop, Keys(groups), g, h', fuel - 1);
        } else {
          assert h in gs[1..];
          ScanDiverges(groups, loop, gs[1..], x, h, fuel);
        }
      }
    }
  }

  /** A group that lists `@all` makes `getMembership` run without end for
      every user. */
  lemma AllMemberDiverges(groups: Dict<Value>, g: string, user: string, fuel: nat)
    requires g in Keys(groups)
    requires Members(groups, g).Ok? && Members(groups, g).value.Some?
    requires "@all" in Members(groups, g).value.value
    ensures !Membership(groups, user, fuel).complete
  {
    assert forall x :: Lists(groups, g, x);
    assert Closed(groups, {g}) by {
      assert ListedIn(groups, {g}, g);
    }
    ScanDiverges(groups, {g}, Keys(groups), user, g, fuel);
  }
}
