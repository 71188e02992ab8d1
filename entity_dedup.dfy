/**
 * `deduplicateEntities` of the parse worker: entities are keyed by their kind
 * and their lower-cased label; for every key the entity with the highest
 * confidence is kept (the earliest one among equals), and the keys come out in
 * the order in which they were first seen.
 */
module EntityDedup {
  import opened Common
  import Text
  import opened SectionParser

  /** The stored name of an entity kind. */
  function KindName(t: EntityType): string {
    match t
    case Summary => "summary"
    case Education => "education"
    case Experience => "experience"
    case Skill => "skill"
    case Language => "language"
    case Certification => "certification"
  }

  /** The map key of an entity: its kind and its lower-cased label. */
  datatype EntityKey = EntityKey(kind: EntityType, folded: string)

  function Key(e: Entity): EntityKey {
    EntityKey(e.kind, Text.ToLower(e.name))
  }

  /** The key as the source spells it, `${entityType}:${label.toLowerCase()}`. */
  function KeyText(k: EntityKey): string {
    KindName(k.kind) + ":" + k.folded
  }

  /** Spelling the key as one string loses nothing: no kind name contains ':' and no two have the same length. */
  lemma KeyTextInjective(a: EntityKey, b: EntityKey)
    requires KeyText(a) == KeyText(b)
    ensures a == b
  {
    var s := KeyText(a);
    var na, nb := KindName(a.kind), KindName(b.kind);
    assert s[|na|] == ':' && s[|nb|] == ':';
    assert a.kind == b.kind;
    assert a.folded == s[|na| + 1..] == b.folded;
  }

  function Keys(entities: seq<Entity>): (keys: seq<EntityKey>)
    ensures |keys| == |entities|
    ensures forall i | 0 <= i < |entities| :: keys[i] == Key(entities[i])
  {
    seq(|entities|, i requires 0 <= i < |entities| => Key(entities[i]))
  }

  /**
   * The entity the map holds for `key` after the scan: a later entity replaces
   * the held one only when its confidence is strictly higher.
   */
  function Best(entities: seq<Entity>, key: EntityKey): (r: Option<Entity>)
    ensures r.Some? ==> r.value in entities && Key(r.value) == key
    decreases |entities|
  {
    if entities == [] then None
    else
      var held := Best(entities[..|entities| - 1], key);
      var e := entities[|entities| - 1];
      if Key(e) != key then held
      else if held.None? || held.value.confidence < e.confidence then Some(e)
      else held
  }

  /** The held entities of `keys`, in the order of `keys`. */
  function Pick(entities: seq<Entity>, keys: seq<EntityKey>): seq<Entity> {
    if keys == [] then []
    else
      Pick(entities, keys[..|keys| - 1])
      + match Best(entities, keys[|keys| - 1]) { case Some(e) => [e] case None => [] }
  }

  /** The result of `deduplicateEntities`: `Array.from(seen.values())`. */
  function Deduplicated(entities: seq<Entity>): seq<Entity> {
    Pick(entities, Text.Dedup(Keys(entities)))
  }

  lemma KeysAppend(entities: seq<Entity>, e: Entity)
    ensures Keys(entities + [e]) == Keys(entities) + [Key(e)]
  {
  }

  /** A key is held exactly when some entity has it. */
  lemma {:induction false} BestSomeIff(entities: seq<Entity>, key: EntityKey)
    ensures Best(entities, key).Some? <==> key in Keys(entities)
    decreases |entities|
  {
    if entities != [] {
      var init := entities[..|entities| - 1];
      var last := entities[|entities| - 1];
      BestSomeIff(init, key);
      assert init + [last] == entities;
      KeysAppend(init, last);
      assert key in Keys(entities) <==> key in Keys(init) || key == Key(last);
    }
  }

  lemma BestStep(entities: seq<Entity>, e: Entity, key: EntityKey)
    ensures var held := Best(entities, key);
            Best(entities + [e], key)
            == if Key(e) != key then held
               else if held.None? || held.value.confidence < e.confidence then Some(e)
               else held
  {
    assert (entities + [e])[..|entities|] == entities;
  }

  lemma DedupStep(entities: seq<Entity>, e: Entity)
    ensures Text.Dedup(Keys(entities + [e]))
            == Text.Dedup(Keys(entities)) + if Key(e) in Keys(entities) then [] else [Key(e)]
  {
    KeysAppend(entities, e);
    assert (Keys(entities) + [Key(e)])[..|entities|] == Keys(entities);
  }

  /** `deduplicateEntities` as the loop over a `Map` it is. */
  method Deduplicate(entities: seq<Entity>) returns (result: seq<Entity>)
    ensures result == Deduplicated(entities)
  {
    var seen, order := Scan(entities);
    result := [];
    for j := 0 to |order|
      invariant result == Pick(entities, order[..j])
    {
      assert order[..j + 1][..j] == order[..j];
      Text.DedupSameValues(Keys(entities));
      assert order[j] in order;
      BestSomeIff(entities, order[j]);
      result := result + [seen[order[j]]];
    }
    assert order[..|order|] == order;
  }

  /** What the map holds after scanning `entities`: the held entity of every key seen. */
  ghost predicate Holds(entities: seq<Entity>, seen: map<EntityKey, Entity>) {
    forall k :: Best(entities, k) == (if k in seen then Some(seen[k]) else None)
  }

  /** One iteration of the scan keeps the map and the key order in step with `Best` and `Dedup`. */
  lemma ScanStep(prefix: seq<Entity>, e: Entity, seen: map<EntityKey, Entity>, order: seq<EntityKey>)
    requires order == Text.Dedup(Keys(prefix)) && Holds(prefix, seen)
    ensures var key := Key(e);
            var seen' := if key !in seen || seen[key].confidence < e.confidence then seen[key := e] else seen;
            var order' := if key !in seen then order + [key] else order;
            order' == Text.Dedup(Keys(prefix + [e])) && Holds(prefix + [e], seen')
  {
    DedupStep(prefix, e);
    BestSomeIff(prefix, Key(e));
    forall k { BestStep(prefix, e, k); }
  }

  /** The loop that fills the map: `order` lists its keys in insertion order. */
  method Scan(entities: seq<Entity>) returns (seen: map<EntityKey, Entity>, order: seq<EntityKey>)
    ensures order == Text.Dedup(Keys(entities))
    ensures Holds(entities, seen)
  {
    seen := map[];
    order := [];
    for i := 0 to |entities|
      invariant order == Text.Dedup(Keys(entities[..i]))
      invariant Holds(entities[..i], seen)
    {
      var entity := entities[i];
      var key := Key(entity);
      assert entities[..i + 1] == entities[..i] + [entity];
      ScanStep(entities[..i], entity, seen, order);
      if key !in seen || seen[key].confidence < entity.confidence {
        if key !in seen {
          order := order + [key];
        }
        seen := seen[key := entity];
      }
    }
    assert entities[..|entities|] == entities;
  }

  // ----- Properties -----

  lemma {:induction false} PickKeys(entities: seq<Entity>, keys: seq<EntityKey>)
    requires forall k | k in keys :: k in Keys(entities)
    ensures Keys(Pick(entities, keys)) == keys
    decreases |keys|
  {
    if keys != [] {
      var init := keys[..|keys| - 1];
      var k := keys[|keys| - 1];
      assert forall x | x in init :: x in keys;
      PickKeys(entities, init);
      assert k in keys;
      BestSomeIff(entities, k);
      var held := Best(entities, k).value;
      assert Pick(entities, keys) == Pick(entities, init) + [held];
      KeysAppend(Pick(entities, init), held);
      assert init + [k] == keys;
    }
  }

  /**
   * One entity per key, and the keys in the order of their first occurrence:
   * the keys of the result are the deduplicated keys of the input.
   */
  lemma DeduplicatedKeys(entities: seq<Entity>)
    ensures Keys(Deduplicated(entities)) == Text.Dedup(Keys(entities))
    ensures Text.NoDuplicates(Keys(Deduplicated(entities)))
    ensures forall e | e in entities :: Key(e) in Keys(Deduplicated(entities))
  {
    Text.DedupSameValues(Keys(entities));
    PickKeys(entities, Text.Dedup(Keys(entities)));
    Text.DedupNoDuplicates(Keys(entities));
    forall e | e in entities ensures Key(e) in Keys(entities) {
      var i :| 0 <= i < |entities| && entities[i] == e;
    }
  }

  lemma {:induction false} PickFrom(entities: seq<Entity>, keys: seq<EntityKey>)
    ensures forall e | e in Pick(entities, keys) :: e in entities
    decreases |keys|
  {
    if keys != [] {
      PickFrom(entities, keys[..|keys| - 1]);
    }
  }

  /** Every kept entity is one of the input entities, unchanged. */
  lemma DeduplicatedFromInput(entities: seq<Entity>)
    ensures forall e | e in Deduplicated(entities) :: e in entities
  {
    PickFrom(entities, Text.Dedup(Keys(entities)));
  }

  /** The held entity has the highest confidence among the entities of its key. */
  lemma {:induction false} BestIsMaximal(entities: seq<Entity>, key: EntityKey)
    ensures forall e | e in entities && Key(e) == key ::
              Best(entities, key).Some? && e.confidence <= Best(entities, key).value.confidence
    decreases |entities|
  {
    if entities != [] {
      var init := entities[..|entities| - 1];
      BestIsMaximal(init, key);
      assert init + [entities[|entities| - 1]] == entities;
    }
  }

  /**
   * Among the entities of the key with the highest confidence, the first one is
   * held: the held entity is `entities[i]` and every earlier entity of the key
   * has a strictly lower confidence.
   */
  lemma {:induction false} BestIsFirstMaximal(entities: seq<Entity>, key: EntityKey) returns (i: nat)
    requires key in Keys(entities)
    ensures i < |entities| && Best(entities, key) == Some(entities[i]) && Key(entities[i]) == key
    ensures forall j | 0 <= j < i && Key(entities[j]) == key :: entities[j].confidence < entities[i].confidence
    decreases |entities|
  {
    var init := entities[..|entities| - 1];
    var last := entities[|entities| - 1];
    assert init + [last] == entities;
    KeysAppend(init, last);
    BestSomeIff(init, key);
    if key in Keys(init) {
      var h := BestIsFirstMaximal(init, key);
      if Key(last) == key && Best(init, key).value.confidence < last.confidence {
        i := |entities| - 1;
        BestIsMaximal(init, key);
        forall j | 0 <= j < i && Key(entities[j]) == key ensures entities[j].confidence < last.confidence {
          assert entities[j] == init[j] && init[j] in init;
        }
      } else {
        i := h;
      }
    } else {
      i := |entities| - 1;
      forall j | 0 <= j < i ensures Key(entities[j]) != key {
        assert Keys(init)[j] == Key(entities[j]);
      }
    }
  }

  /** An entity whose key no other entity has is held. */
  lemma {:induction false} BestOfUniqueKey(entities: seq<Entity>, i: nat)
    requires i < |entities|
    requires forall j | 0 <= j < |entities| && j != i :: Key(entities[j]) != Key(entities[i])
    ensures Best(entities, Key(entities[i])) == Some(entities[i])
    decreases |entities|
  {
    var init := entities[..|entities| - 1];
    if i < |entities| - 1 {
      BestOfUniqueKey(init, i);
    } else {
      assert forall e | e in init :: Key(e) != Key(entities[i]);
    }
  }

  lemma {:induction false} PickAll(entities: seq<Entity>, n: nat)
    requires n <= |entities|
    requires Text.NoDuplicates(Keys(entities))
    ensures Pick(entities, Keys(entities)[..n]) == entities[..n]
    decreases n
  {
    if n > 0 {
      PickAll(entities, n - 1);
      assert Keys(entities)[..n][..n - 1] == Keys(entities)[..n - 1];
      BestOfUniqueKey(entities, n - 1);
      assert entities[..n] == entities[..n - 1] + [entities[n - 1]];
    }
  }

  /** Deduplicating a deduplicated list changes nothing. */
  lemma DeduplicateIdempotent(entities: seq<Entity>)
    ensures Deduplicated(Deduplicated(entities)) == Deduplicated(entities)
  {
    var d := Deduplicated(entities);
    DeduplicatedKeys(entities);
    Text.DedupOfDistinct(Keys(d));
    PickAll(d, |d|);
    assert Keys(d)[..|d|] == Keys(d) && d[..|d|] == d;
  }
}
