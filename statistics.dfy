/**
 * The four tracked card statistics. Each statistic keeps its original value, at most one
 * modifier per source id (a mapping from source id to delta) and the HP lost so far; its
 * calculated value is the original plus every modifier's delta minus the loss. Items
 * merge their statistics in as modifiers tagged with the item's id and take them back
 * with RemoveAll.
 */
module Statistics {

  datatype Modifier = Modifier(source: string, delta: int)

  datatype Stat = Stat(original: int, modifiers: seq<Modifier>, lost: int)

  datatype Stats = Stats(attack: Stat, hp: Stat, speed: Stat, power: Stat)

  function Sum(ms: seq<Modifier>): int
  {
    if ms == [] then 0 else ms[0].delta + Sum(ms[1..])
  }

  /** The value the game reads: the original plus all active deltas, minus the loss. */
  function Calculated(s: Stat): int
  {
    s.original + Sum(s.modifiers) - s.lost
  }

  function NewStat(original: int): (s: Stat)
    ensures Calculated(s) == original && s.original == original
  {
    Stat(original, [], 0)
  }

  /** A freshly created statistic group: every original value 0, no modifiers. */
  function Zero(): Stats
  {
    Stats(Stat(0, [], 0), Stat(0, [], 0), Stat(0, [], 0), Stat(0, [], 0))
  }

  /** The modifiers whose source is not `id`. */
  function Without(ms: seq<Modifier>, id: string): (r: seq<Modifier>)
    ensures forall m :: m in r <==> m in ms && m.source != id
  {
    if ms == [] then []
    else if ms[0].source == id then Without(ms[1..], id)
    else [ms[0]] + Without(ms[1..], id)
  }

  /** The statistic without any modifier from `id`. */
  function RemoveSource(s: Stat, id: string): (r: Stat)
    ensures r.original == s.original && r.lost == s.lost
    ensures forall m :: m in r.modifiers <==> m in s.modifiers && m.source != id
  {
    s.(modifiers := Without(s.modifiers, id))
  }

  /** The statistic with the modifier from `id` set to `delta`, replacing any earlier one. */
  function SetModifier(s: Stat, id: string, delta: int): (r: Stat)
    ensures Calculated(r) == Calculated(RemoveSource(s, id)) + delta
    ensures Modifier(id, delta) in r.modifiers
  {
    SumAppend(Without(s.modifiers, id), [Modifier(id, delta)]);
    s.(modifiers := Without(s.modifiers, id) + [Modifier(id, delta)])
  }

  /** Merges every calculated value of `source` into `g` as the modifiers of source `id`. */
  function Modify(g: Stats, source: Stats, id: string): (r: Stats)
    ensures Calculated(r.attack) == Calculated(RemoveSource(g.attack, id)) + Calculated(source.attack)
    ensures Calculated(r.hp) == Calculated(RemoveSource(g.hp, id)) + Calculated(source.hp)
    ensures Calculated(r.speed) == Calculated(RemoveSource(g.speed, id)) + Calculated(source.speed)
    ensures Calculated(r.power) == Calculated(RemoveSource(g.power, id)) + Calculated(source.power)
  {
    Stats(SetModifier(g.attack, id, Calculated(source.attack)),
          SetModifier(g.hp, id, Calculated(source.hp)),
          SetModifier(g.speed, id, Calculated(source.speed)),
          SetModifier(g.power, id, Calculated(source.power)))
  }

  /** Strips every modifier of source `id` from all four statistics. */
  function RemoveAll(g: Stats, id: string): (r: Stats)
    ensures Untagged(r, id)
  {
    Stats(RemoveSource(g.attack, id), RemoveSource(g.hp, id),
          RemoveSource(g.speed, id), RemoveSource(g.power, id))
  }

  /** Lowers the calculated HP by exactly `damage`; the other statistics stay as they are. */
  function Damaged(g: Stats, damage: int): (r: Stats)
    ensures Calculated(r.hp) == Calculated(g.hp) - damage
    ensures r.attack == g.attack && r.speed == g.speed && r.power == g.power
  {
    g.(hp := g.hp.(lost := g.hp.lost + damage))
  }

  predicate Untagged(g: Stats, id: string)
  {
    && (forall m :: m in g.attack.modifiers ==> m.source != id)
    && (forall m :: m in g.hp.modifiers ==> m.source != id)
    && (forall m :: m in g.speed.modifiers ==> m.source != id)
    && (forall m :: m in g.power.modifiers ==> m.source != id)
  }

  lemma {:induction false} SumAppend(a: seq<Modifier>, b: seq<Modifier>)
    ensures Sum(a + b) == Sum(a) + Sum(b)
  {
    if a == [] {
      assert a + b == b;
    } else {
      assert (a + b)[1..] == a[1..] + b;
      SumAppend(a[1..], b);
    }
  }

  lemma {:induction false} WithoutAppend(a: seq<Modifier>, b: seq<Modifier>, id: string)
    ensures Without(a + b, id) == Without(a, id) + Without(b, id)
  {
    if a == [] {
      assert a + b == b;
    } else {
      assert (a + b)[1..] == a[1..] + b;
      WithoutAppend(a[1..], b, id);
    }
  }

  lemma {:induction false} WithoutAbsent(ms: seq<Modifier>, id: string)
    requires forall m :: m in ms ==> m.source != id
    ensures Without(ms, id) == ms
  {
    if ms != [] {
      WithoutAbsent(ms[1..], id);
    }
  }

  lemma {:induction false} WithoutTwice(ms: seq<Modifier>, id: string)
    ensures Without(Without(ms, id), id) == Without(ms, id)
  {
    WithoutAbsent(Without(ms, id), id);
  }

  /** Setting and then removing a source's modifier is the same as removing it at once. */
  lemma SetThenRemove(s: Stat, id: string, delta: int)
    ensures RemoveSource(SetModifier(s, id, delta), id) == RemoveSource(s, id)
  {
    WithoutAppend(Without(s.modifiers, id), [Modifier(id, delta)], id);
    assert Without([Modifier(id, delta)], id) == [];
    WithoutTwice(s.modifiers, id);
  }

  lemma SetTwice(s: Stat, id: string, delta: int)
    ensures SetModifier(SetModifier(s, id, delta), id, delta) == SetModifier(s, id, delta)
  {
    SetThenRemove(s, id, delta);
  }

  /**
   * Modifier round trip: RemoveAll with the id a Modify used leaves exactly what removing
   * that id alone leaves, whatever other sources' modifiers the group carries.
   */
  lemma ModifyThenRemoveAll(g: Stats, source: Stats, id: string)
    ensures RemoveAll(Modify(g, source, id), id) == RemoveAll(g, id)
  {
    SetThenRemove(g.attack, id, Calculated(source.attack));
    SetThenRemove(g.hp, id, Calculated(source.hp));
    SetThenRemove(g.speed, id, Calculated(source.speed));
    SetThenRemove(g.power, id, Calculated(source.power));
  }

  /** Removing a source the group never carried changes nothing. */
  lemma RemoveAllUntagged(g: Stats, id: string)
    requires Untagged(g, id)
    ensures RemoveAll(g, id) == g
  {
    WithoutAbsent(g.attack.modifiers, id);
    WithoutAbsent(g.hp.modifiers, id);
    WithoutAbsent(g.speed.modifiers, id);
    WithoutAbsent(g.power.modifiers, id);
  }

  /** The full round trip for an item whose id `g` never carried. */
  lemma ModifyThenRemoveAllRestores(g: Stats, source: Stats, id: string)
    requires Untagged(g, id)
    ensures RemoveAll(Modify(g, source, id), id) == g
  {
    ModifyThenRemoveAll(g, source, id);
    RemoveAllUntagged(g, id);
  }

  /** Applying the same source twice is the same as applying it once. */
  lemma ModifyIdempotent(g: Stats, source: Stats, id: string)
    ensures Modify(Modify(g, source, id), source, id) == Modify(g, source, id)
  {
    SetTwice(g.attack, id, Calculated(source.attack));
    SetTwice(g.hp, id, Calculated(source.hp));
    SetTwice(g.speed, id, Calculated(source.speed));
    SetTwice(g.power, id, Calculated(source.power));
  }

  /** On a group untouched by `id`, Modify adds the source's calculated values. */
  lemma ModifyAdds(g: Stats, source: Stats, id: string)
    requires Untagged(g, id)
    ensures Calculated(Modify(g, source, id).hp) == Calculated(g.hp) + Calculated(source.hp)
    ensures Calculated(Modify(g, source, id).attack) == Calculated(g.attack) + Calculated(source.attack)
    ensures Calculated(Modify(g, source, id).speed) == Calculated(g.speed) + Calculated(source.speed)
    ensures Calculated(Modify(g, source, id).power) == Calculated(g.power) + Calculated(source.power)
  {
    RemoveAllUntagged(g, id);
  }

  /** Filtering out two sources gives the same list in either order. */
  lemma {:induction false} WithoutCommutes(ms: seq<Modifier>, a: string, b: string)
    ensures Without(Without(ms, a), b) == Without(Without(ms, b), a)
  {
    if ms != [] {
      WithoutCommutes(ms[1..], a, b);
      if ms[0].source != a && ms[0].source != b {
        assert Without(ms, a) == [ms[0]] + Without(ms[1..], a);
        assert Without(ms, b) == [ms[0]] + Without(ms[1..], b);
        assert ([ms[0]] + Without(ms[1..], a))[1..] == Without(ms[1..], a);
        assert ([ms[0]] + Without(ms[1..], b))[1..] == Without(ms[1..], b);
      }
    }
  }

  /** Removing source `a` commutes with setting the modifier of another source `b`. */
  lemma RemoveSourceSetCommute(s: Stat, a: string, b: string, delta: int)
    requires a != b
    ensures RemoveSource(SetModifier(s, b, delta), a) == SetModifier(RemoveSource(s, a), b, delta)
  {
    WithoutAppend(Without(s.modifiers, b), [Modifier(b, delta)], a);
    assert Without([Modifier(b, delta)], a) == [Modifier(b, delta)];
    WithoutCommutes(s.modifiers, a, b);
  }

  /** Taking one item's modifiers off commutes with merging another item's in. */
  lemma RemoveAllModifyCommute(g: Stats, source: Stats, a: string, b: string)
    requires a != b
    ensures RemoveAll(Modify(g, source, b), a) == Modify(RemoveAll(g, a), source, b)
  {
    RemoveSourceSetCommute(g.attack, a, b, Calculated(source.attack));
    RemoveSourceSetCommute(g.hp, a, b, Calculated(source.hp));
    RemoveSourceSetCommute(g.speed, a, b, Calculated(source.speed));
    RemoveSourceSetCommute(g.power, a, b, Calculated(source.power));
  }

  /** Damage and the removal of a source's modifiers touch different parts and commute. */
  lemma RemoveAllDamaged(g: Stats, id: string, damage: int)
    ensures RemoveAll(Damaged(g, damage), id) == Damaged(RemoveAll(g, id), damage)
  {
  }

  /** Taking one source off keeps every other source that was absent absent. */
  lemma RemoveAllKeepsUntagged(g: Stats, a: string, b: string)
    requires Untagged(g, b)
    ensures Untagged(RemoveAll(g, a), b)
  {
  }
}
