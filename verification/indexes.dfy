/**
  The two indexes every planner of the container keeps beside its list of bean definitions: a
  name index (bean name to bean id) and a type index (type id, then bean name, to bean id), as
  functions of the definition list, with what they contain when names are unique.
*/
module BeanIndexes {
  import opened BeanTypes

  /** `TypeBeanIdMap`: type id to (bean name to bean id). */
  type TypeBeanIdMap = map<TypeId, map<Name, nat>>

  /** `NameBeanIdMap`: bean name to bean id. */
  type NameBeanIdMap = map<Name, nat>

  lemma SubsetCard<T>(a: set<T>, b: set<T>)
    requires a <= b
    ensures |a| <= |b|
  {
    assert b == a + (b - a);
  }

  /** A map with exactly one entry has exactly one key. */
  lemma SingletonKeys(m: map<Name, nat>)
    requires |m| == 1
    ensures exists k :: k in m && forall k' :: k' in m ==> k' == k
  {
    var k :| k in m.Keys;
    forall k' | k' in m ensures k' == k {
      if k != k' {
        SubsetCard({k, k'}, m.Keys);
      }
    }
  }

  /** A map with more than one entry has two distinct keys. */
  lemma TwoKeys(m: map<Name, nat>)
    requires |m| > 1
    ensures exists k, k' :: k in m && k' in m && k != k'
  {
    var k :| k in m.Keys;
    assert |m.Keys - {k}| == |m| - 1;
    var k' :| k' in m.Keys - {k};
  }

  /** `m.values().last()` on a map with one entry: that entry's value. */
  function OnlyValue(m: map<Name, nat>): (v: nat)
    requires |m| == 1
    ensures forall k :: k in m ==> m[k] == v
  {
    SingletonKeys(m);
    var k :| k in m && forall k' :: k' in m ==> k' == k;
    m[k]
  }

  /** Bean names are unique across all types. */
  ghost predicate UniqueNames<Q>(defs: seq<BeanDefinition<Q>>)
  {
    forall i, j :: 0 <= i < j < |defs| ==> defs[i].name != defs[j].name
  }

  /** The name index of a definition list: each name to its definition's id. */
  function NameMapOf<Q>(defs: seq<BeanDefinition<Q>>): NameBeanIdMap
    decreases |defs|
  {
    if defs == [] then map[]
    else NameMapOf(defs[..|defs| - 1])[defs[|defs| - 1].name := |defs| - 1]
  }

  /** The type index of a definition list: each type to the names and ids of its definitions. */
  function TypeMapOf<Q>(defs: seq<BeanDefinition<Q>>): TypeBeanIdMap
    decreases |defs|
  {
    if defs == [] then map[]
    else
      var m := TypeMapOf(defs[..|defs| - 1]);
      var d := defs[|defs| - 1];
      var inner := if d.typeId in m then m[d.typeId] else map[];
      m[d.typeId := inner[d.name := |defs| - 1]]
  }

  /** The two maps index exactly the registered definitions, whose names are unique. */
  ghost predicate Indexed<Q>(defs: seq<BeanDefinition<Q>>, typeMap: TypeBeanIdMap, nameMap: NameBeanIdMap)
  {
    UniqueNames(defs) && typeMap == TypeMapOf(defs) && nameMap == NameMapOf(defs)
  }

  lemma UniqueNamesPrefix<Q>(defs: seq<BeanDefinition<Q>>, k: nat)
    requires UniqueNames(defs) && k <= |defs|
    ensures UniqueNames(defs[..k])
  {
  }

  lemma {:induction false} NameMapOfHas<Q>(defs: seq<BeanDefinition<Q>>, i: nat)
    requires UniqueNames(defs) && i < |defs|
    ensures defs[i].name in NameMapOf(defs) && NameMapOf(defs)[defs[i].name] == i
    decreases |defs|
  {
    var init := defs[..|defs| - 1];
    if i < |defs| - 1 {
      UniqueNamesPrefix(defs, |defs| - 1);
      NameMapOfHas(init, i);
      assert defs[i] == init[i];
      assert defs[i].name != defs[|defs| - 1].name;
    }
  }

  lemma {:induction false} NameMapOfOnly<Q>(defs: seq<BeanDefinition<Q>>, n: Name)
    requires n in NameMapOf(defs)
    ensures NameMapOf(defs)[n] < |defs| && defs[NameMapOf(defs)[n]].name == n
    decreases |defs|
  {
    var init := defs[..|defs| - 1];
    if n != defs[|defs| - 1].name {
      NameMapOfOnly(init, n);
      assert defs[NameMapOf(init)[n]] == init[NameMapOf(init)[n]];
    }
  }

  /** The name index sends exactly the registered names to their ids. */
  lemma NameMapOfSpec<Q>(defs: seq<BeanDefinition<Q>>)
    requires UniqueNames(defs)
    ensures forall i :: 0 <= i < |defs| ==> defs[i].name in NameMapOf(defs) && NameMapOf(defs)[defs[i].name] == i
    ensures forall n :: n in NameMapOf(defs) ==> NameMapOf(defs)[n] < |defs| && defs[NameMapOf(defs)[n]].name == n
  {
    forall i | 0 <= i < |defs| ensures defs[i].name in NameMapOf(defs) && NameMapOf(defs)[defs[i].name] == i {
      NameMapOfHas(defs, i);
    }
    forall n | n in NameMapOf(defs) ensures NameMapOf(defs)[n] < |defs| && defs[NameMapOf(defs)[n]].name == n {
      NameMapOfOnly(defs, n);
    }
  }

  /**
    A name the name index lacks is new: appending its definition keeps names unique, and the
    name is absent from the type index as well.
  */
  lemma FreshName<Q>(defs: seq<BeanDefinition<Q>>, d: BeanDefinition<Q>)
    requires UniqueNames(defs) && d.name !in NameMapOf(defs)
    ensures UniqueNames(defs + [d])
    ensures d.typeId in TypeMapOf(defs) ==> d.name !in TypeMapOf(defs)[d.typeId]
  {
    forall i | 0 <= i < |defs| ensures defs[i].name != d.name {
      NameMapOfHas(defs, i);
    }
    if d.typeId in TypeMapOf(defs) && d.name in TypeMapOf(defs)[d.typeId] {
      TypeMapOfOnly(defs, d.typeId, d.name);
    }
  }

  lemma {:induction false} TypeMapOfHas<Q>(defs: seq<BeanDefinition<Q>>, i: nat)
    requires UniqueNames(defs) && i < |defs|
    ensures defs[i].typeId in TypeMapOf(defs) && defs[i].name in TypeMapOf(defs)[defs[i].typeId]
    ensures TypeMapOf(defs)[defs[i].typeId][defs[i].name] == i
    decreases |defs|
  {
    var init := defs[..|defs| - 1];
    if i < |defs| - 1 {
      UniqueNamesPrefix(defs, |defs| - 1);
      TypeMapOfHas(init, i);
      assert defs[i] == init[i];
      assert defs[i].name != defs[|defs| - 1].name;
    }
  }

  lemma {:induction false} TypeMapOfOnly<Q>(defs: seq<BeanDefinition<Q>>, t: TypeId, n: Name)
    requires UniqueNames(defs) && t in TypeMapOf(defs) && n in TypeMapOf(defs)[t]
    ensures TypeMapOf(defs)[t][n] < |defs|
    ensures defs[TypeMapOf(defs)[t][n]].typeId == t && defs[TypeMapOf(defs)[t][n]].name == n
    decreases |defs|
  {
    var init := defs[..|defs| - 1];
    var d := defs[|defs| - 1];
    var m := TypeMapOf(init);
    if t != d.typeId || n != d.name {
      assert t in m && n in m[t];
      UniqueNamesPrefix(defs, |defs| - 1);
      TypeMapOfOnly(init, t, n);
      assert defs[m[t][n]] == init[m[t][n]];
    }
  }

  lemma {:induction false} TypeMapOfNonEmpty<Q>(defs: seq<BeanDefinition<Q>>, t: TypeId)
    requires t in TypeMapOf(defs)
    ensures |TypeMapOf(defs)[t]| > 0
    decreases |defs|
  {
    var d := defs[|defs| - 1];
    if t == d.typeId {
      assert d.name in TypeMapOf(defs)[t];
    } else {
      TypeMapOfNonEmpty(defs[..|defs| - 1], t);
    }
  }

  /**
    The type index sends each registered definition's type and name to its id, contains nothing
    else, and has no empty inner map.
  */
  lemma TypeMapOfSpec<Q>(defs: seq<BeanDefinition<Q>>)
    requires UniqueNames(defs)
    ensures forall i :: 0 <= i < |defs| ==>
      defs[i].typeId in TypeMapOf(defs) && defs[i].name in TypeMapOf(defs)[defs[i].typeId]
      && TypeMapOf(defs)[defs[i].typeId][defs[i].name] == i
    ensures forall t, n :: t in TypeMapOf(defs) && n in TypeMapOf(defs)[t] ==>
      TypeMapOf(defs)[t][n] < |defs| && defs[TypeMapOf(defs)[t][n]].typeId == t
      && defs[TypeMapOf(defs)[t][n]].name == n
    ensures forall t :: t in TypeMapOf(defs) ==> |TypeMapOf(defs)[t]| > 0
  {
    forall i | 0 <= i < |defs|
      ensures defs[i].typeId in TypeMapOf(defs) && defs[i].name in TypeMapOf(defs)[defs[i].typeId]
      ensures TypeMapOf(defs)[defs[i].typeId][defs[i].name] == i
    {
      TypeMapOfHas(defs, i);
    }
    forall t, n | t in TypeMapOf(defs) && n in TypeMapOf(defs)[t]
      ensures TypeMapOf(defs)[t][n] < |defs|
      ensures defs[TypeMapOf(defs)[t][n]].typeId == t && defs[TypeMapOf(defs)[t][n]].name == n
    {
      TypeMapOfOnly(defs, t, n);
    }
    forall t | t in TypeMapOf(defs) ensures |TypeMapOf(defs)[t]| > 0 {
      TypeMapOfNonEmpty(defs, t);
    }
  }
}
