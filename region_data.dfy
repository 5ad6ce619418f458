/** The generated region catalog: provinces, and for every code of one level the two
    options of the next level (city, district, street, village). */
module RegionData {

  /** One selectable option: `value` is the code stored in a form field, `caption` is the
      text shown (the `label` field of an area, renamed because `label` is a Dafny keyword). */
  datatype Area = Area(value: string, caption: string)

  /** The words a level appends to its parent: the value gets `-{valueTag}{n}`,
      the label gets `{captionTag}{n}`. */
  datatype LevelTag = LevelTag(valueTag: string, captionTag: string)

  /** Number of provinces generated. */
  const ProvinceCount: nat := 10

  /** Number of levels: province, city, district, street, village. */
  const Depth: nat := 5

  /** The tag of each generated child level (depth 1 is city, ..., depth 4 is village). */
  function TagOf(depth: nat): LevelTag
    requires 1 <= depth < Depth
  {
    if depth == 1 then LevelTag("city", "市")
    else if depth == 2 then LevelTag("district", "区")
    else if depth == 3 then LevelTag("street", "街道")
    else LevelTag("village", "村")
  }

  // ---------------------------------------------------------------------------
  // Decimal rendering of a number, as a template literal `${n}` produces it

  function DigitChar(d: nat): char
    requires d < 10
  {
    ('0' as int + d) as char
  }

  function Decimal(n: nat): (s: string)
    ensures |s| >= 1
    ensures (n < 10) == (|s| == 1)
    decreases n
  {
    if n < 10 then [DigitChar(n)] else Decimal(n / 10) + [DigitChar(n % 10)]
  }

  /** Appending equally long tails keeps strings apart when the heads or the tails differ. */
  lemma DistinctExtensions(a: string, b: string, s: string, t: string)
    requires |s| == |t|
    requires a != b || s != t
    ensures a + s != b + t
  {
    if |a| != |b| {
      assert |a + s| != |b + t|;
    } else if a != b {
      assert (a + s)[..|a|] == a;
      assert (b + t)[..|b|] == b;
    } else {
      assert (a + s)[|a|..] == s;
      assert (b + t)[|b|..] == t;
    }
  }

  /** Distinct numbers render as distinct decimal strings. */
  lemma {:induction false} DecimalInjective(a: nat, b: nat)
    requires a != b
    ensures Decimal(a) != Decimal(b)
    decreases a
  {
    if a < 10 && b < 10 {
      assert Decimal(a)[0] != Decimal(b)[0];
    } else if a >= 10 && b >= 10 {
      if a % 10 != b % 10 {
        DistinctExtensions(Decimal(a / 10), Decimal(b / 10), [DigitChar(a % 10)], [DigitChar(b % 10)]);
      } else {
        DecimalInjective(a / 10, b / 10);
        DistinctExtensions(Decimal(a / 10), Decimal(b / 10), [DigitChar(a % 10)], [DigitChar(b % 10)]);
      }
    } else {
      assert |Decimal(a)| != |Decimal(b)|;
    }
  }

  // ---------------------------------------------------------------------------
  // The generators

  /** Province number `index` (counting from 1). */
  function Province(index: nat): Area {
    Area("province" + Decimal(index), "省" + Decimal(index))
  }

  /** The province list, `Array.from({length: 10}).map(...)`. */
  function Provinces(): seq<Area> {
    seq(ProvinceCount, i requires 0 <= i < ProvinceCount => Province(i + 1))
  }

  /** What a level appends to its parent's value: `-{valueTag}{num}`. */
  function Suffix(tag: LevelTag, num: nat): string {
    "-" + tag.valueTag + Decimal(num)
  }

  /** Child number `num` of `parent` at the level that `tag` names. */
  function Child(parent: Area, tag: LevelTag, num: nat): Area {
    Area(parent.value + Suffix(tag, num), parent.caption + tag.captionTag + Decimal(num))
  }

  /** `[1, 2].map(num => child num)`: the options under one parent. */
  function ChildrenOf(parent: Area, tag: LevelTag): seq<Area> {
    [Child(parent, tag, 1), Child(parent, tag, 2)]
  }

  /** The children of every parent, parent by parent. */
  function Expand(parents: seq<Area>, tag: LevelTag): (r: seq<Area>)
    ensures |r| == 2 * |parents|
  {
    if parents == [] then [] else ChildrenOf(parents[0], tag) + Expand(parents[1..], tag)
  }

  /** Every option of one level, in generation order: 0 provinces, 1 cities, ..., 4 villages. */
  function LevelList(depth: nat): seq<Area>
    requires depth < Depth
  {
    if depth == 0 then Provinces() else Expand(LevelList(depth - 1), TagOf(depth))
  }

  /** The accumulation step of the generators: for each parent in order, the accumulator
      maps the parent's value to its children (`{...acc, [p.value]: ...}` for cities,
      `acc[p.value] = ...` inside the `forEach` for the deeper levels). */
  function Attach(acc: map<string, seq<Area>>, parents: seq<Area>, tag: LevelTag): map<string, seq<Area>>
    decreases |parents|
  {
    if parents == [] then acc
    else Attach(acc[parents[0].value := ChildrenOf(parents[0], tag)], parents[1..], tag)
  }

  /** A whole generator run: the accumulation started from the empty object `{}`. */
  function Generate(parents: seq<Area>, tag: LevelTag): map<string, seq<Area>> {
    Attach(map[], parents, tag)
  }

  /** The parents of level `depth`: every option of the level above. */
  function Parents(depth: nat): seq<Area>
    requires 1 <= depth < Depth
  {
    LevelList(depth - 1)
  }

  /** The catalog of level `depth`: parent value of level `depth - 1` to its options. */
  function Catalog(depth: nat): map<string, seq<Area>>
    requires 1 <= depth < Depth
  {
    Generate(Parents(depth), TagOf(depth))
  }

  function Cities(): map<string, seq<Area>> { Catalog(1) }
  function Districts(): map<string, seq<Area>> { Catalog(2) }
  function Streets(): map<string, seq<Area>> { Catalog(3) }
  function Villages(): map<string, seq<Area>> { Catalog(4) }

  /** `Object.values` of the catalog built from `parents`, in insertion order. */
  function Groups(parents: seq<Area>, tag: LevelTag): seq<seq<Area>> {
    seq(|parents|, i requires 0 <= i < |parents| => ChildrenOf(parents[i], tag))
  }

  function Flatten(groups: seq<seq<Area>>): seq<Area> {
    if groups == [] then [] else groups[0] + Flatten(groups[1..])
  }

  /** The `reduce` over `Object.values(previous level)` whose `forEach` assigns into
      the accumulator in place (districts, streets and villages). */
  method GatherChildren(groups: seq<seq<Area>>, tag: LevelTag) returns (acc: map<string, seq<Area>>)
    ensures acc == Generate(Flatten(groups), tag)
  {
    acc := map[];
    var i := 0;
    assert groups[..0] == [];
    while i < |groups|
      invariant 0 <= i <= |groups|
      invariant acc == Attach(map[], Flatten(groups[..i]), tag)
    {
      var list := groups[i];
      var j := 0;
      assert Flatten(groups[..i]) + list[..0] == Flatten(groups[..i]);
      while j < |list|
        invariant 0 <= j <= |list|
        invariant acc == Attach(map[], Flatten(groups[..i]) + list[..j], tag)
      {
        assert list[..j + 1] == list[..j] + [list[j]];
        assert Flatten(groups[..i]) + list[..j + 1] == (Flatten(groups[..i]) + list[..j]) + [list[j]];
        AttachSnoc(map[], Flatten(groups[..i]) + list[..j], list[j], tag);
        acc := acc[list[j].value := ChildrenOf(list[j], tag)];
        j := j + 1;
      }
      assert list[..j] == list;
      assert groups[..i + 1] == groups[..i] + [list];
      FlattenSnoc(groups[..i], list);
      i := i + 1;
    }
    assert groups[..i] == groups;
  }

  /** The initialiser of `districts` (depth 2), `streets` (3) or `villages` (4). */
  method BuildLevel(depth: nat) returns (m: map<string, seq<Area>>)
    requires 2 <= depth < Depth
    ensures m == Catalog(depth)
  {
    m := GatherChildren(Groups(LevelList(depth - 2), TagOf(depth - 1)), TagOf(depth));
    GroupsFlatten(LevelList(depth - 2), TagOf(depth - 1));
  }

  // ---------------------------------------------------------------------------
  // Sets of codes and uniqueness

  function ValueSet(areas: seq<Area>): set<string> {
    if areas == [] then {} else {areas[0].value} + ValueSet(areas[1..])
  }

  /** No two options of the sequence share a value. */
  predicate Distinct(areas: seq<Area>) {
    forall i, j :: 0 <= i < j < |areas| ==> areas[i].value != areas[j].value
  }

  lemma {:induction false} ValueSetMembers(areas: seq<Area>)
    ensures forall i :: 0 <= i < |areas| ==> areas[i].value in ValueSet(areas)
    ensures forall v :: v in ValueSet(areas) ==> exists i :: 0 <= i < |areas| && areas[i].value == v
  {
    if areas != [] {
      var rest := areas[1..];
      ValueSetMembers(rest);
      forall i | 0 <= i < |areas| ensures areas[i].value in ValueSet(areas) {
        if i > 0 { assert areas[i] == rest[i - 1]; }
      }
      forall v | v in ValueSet(areas) ensures exists i :: 0 <= i < |areas| && areas[i].value == v {
        if v != areas[0].value {
          var k :| 0 <= k < |rest| && rest[k].value == v;
          assert areas[k + 1].value == v;
        }
      }
    }
  }

  /** With distinct values, there are as many codes as options. */
  lemma {:induction false} ValueSetCard(areas: seq<Area>)
    requires Distinct(areas)
    ensures |ValueSet(areas)| == |areas|
  {
    if areas != [] {
      var rest := areas[1..];
      ValueSetMembers(rest);
      assert Distinct(rest) by {
        forall i, j | 0 <= i < j < |rest| ensures rest[i].value != rest[j].value {
          assert rest[i] == areas[i + 1] && rest[j] == areas[j + 1];
        }
      }
      ValueSetCard(rest);
    }
  }

  lemma {:induction false} FlattenSnoc(groups: seq<seq<Area>>, g: seq<Area>)
    ensures Flatten(groups + [g]) == Flatten(groups) + g
  {
    if groups == [] {
      assert [g][1..] == [];
    } else {
      assert (groups + [g])[1..] == groups[1..] + [g];
      FlattenSnoc(groups[1..], g);
    }
  }

  lemma {:induction false} AttachSnoc(acc: map<string, seq<Area>>, parents: seq<Area>, p: Area, tag: LevelTag)
    ensures Attach(acc, parents + [p], tag) == Attach(acc, parents, tag)[p.value := ChildrenOf(p, tag)]
    decreases |parents|
  {
    if parents == [] {
      assert [p][1..] == [];
    } else {
      assert (parents + [p])[1..] == parents[1..] + [p];
      AttachSnoc(acc[parents[0].value := ChildrenOf(parents[0], tag)], parents[1..], p, tag);
    }
  }

  /** The keys the accumulation adds are exactly the parents' values. */
  lemma {:induction false} AttachKeys(acc: map<string, seq<Area>>, parents: seq<Area>, tag: LevelTag)
    ensures Attach(acc, parents, tag).Keys == acc.Keys + ValueSet(parents)
    decreases |parents|
  {
    if parents != [] {
      AttachKeys(acc[parents[0].value := ChildrenOf(parents[0], tag)], parents[1..], tag);
    }
  }

  /** Keys that no parent carries keep what the accumulator held. */
  lemma {:induction false} AttachKeeps(acc: map<string, seq<Area>>, parents: seq<Area>, tag: LevelTag, k: string)
    requires k in acc && k !in ValueSet(parents)
    ensures k in Attach(acc, parents, tag) && Attach(acc, parents, tag)[k] == acc[k]
    decreases |parents|
  {
    if parents != [] {
      AttachKeeps(acc[parents[0].value := ChildrenOf(parents[0], tag)], parents[1..], tag, k);
    }
  }

  /** With distinct parents, each parent's key maps to its own two children. */
  lemma {:induction false} AttachAt(acc: map<string, seq<Area>>, parents: seq<Area>, tag: LevelTag, i: nat)
    requires Distinct(parents) && i < |parents|
    ensures parents[i].value in Attach(acc, parents, tag)
    ensures Attach(acc, parents, tag)[parents[i].value] == ChildrenOf(parents[i], tag)
    decreases |parents|
  {
    var acc' := acc[parents[0].value := ChildrenOf(parents[0], tag)];
    var rest := parents[1..];
    if i == 0 {
      ValueSetMembers(rest);
      assert parents[0].value !in ValueSet(rest) by {
        forall k | 0 <= k < |rest| ensures rest[k].value != parents[0].value {
          assert rest[k] == parents[k + 1];
        }
      }
      AttachKeeps(acc', rest, tag, parents[0].value);
    } else {
      assert Distinct(rest) by {
        forall a, b | 0 <= a < b < |rest| ensures rest[a].value != rest[b].value {
          assert rest[a] == parents[a + 1] && rest[b] == parents[b + 1];
        }
      }
      assert rest[i - 1] == parents[i];
      AttachAt(acc', rest, tag, i - 1);
    }
  }

  lemma {:induction false} GroupsFlatten(parents: seq<Area>, tag: LevelTag)
    ensures Flatten(Groups(parents, tag)) == Expand(parents, tag)
    decreases |parents|
  {
    if parents != [] {
      assert Groups(parents, tag)[1..] == Groups(parents[1..], tag);
      GroupsFlatten(parents[1..], tag);
    }
  }

  /** Position `j` of `Expand` holds child `j % 2` of parent `j / 2`. */
  lemma {:induction false} ExpandAt(parents: seq<Area>, tag: LevelTag, j: nat)
    requires j < 2 * |parents|
    ensures Expand(parents, tag)[j] == ChildrenOf(parents[j / 2], tag)[j % 2]
    decreases |parents|
  {
    if j >= 2 {
      ExpandAt(parents[1..], tag, j - 2);
      assert parents[1..][(j - 2) / 2] == parents[j / 2];
    }
  }

  // ---------------------------------------------------------------------------
  // Properties of the catalog

  /** A common head followed by different tails gives different strings. */
  lemma SameHeadDistinct(head: string, s: string, t: string)
    requires s != t
    ensures head + s != head + t
  {
    assert (head + s)[|head|..] == s;
    assert (head + t)[|head|..] == t;
  }

  /** `provinces` has ten entries `province{i}` / `省{i}` for i = 1..10, with distinct values. */
  lemma ProvincesShape()
    ensures |Provinces()| == ProvinceCount
    ensures forall i :: 0 <= i < ProvinceCount ==>
      Provinces()[i].value == "province" + Decimal(i + 1) && Provinces()[i].caption == "省" + Decimal(i + 1)
    ensures Distinct(Provinces())
    ensures Provinces()[0] == Area("province1", "省1") && Provinces()[9] == Area("province10", "省10")
  {
    var ps := Provinces();
    forall i, j | 0 <= i < j < |ps| ensures ps[i].value != ps[j].value {
      DecimalInjective(i + 1, j + 1);
      SameHeadDistinct("province", Decimal(i + 1), Decimal(j + 1));
    }
  }

  /** The two children of a parent: values `{parent}-{tag}1` and `{parent}-{tag}2`, captions
      `{parent}{tag}1` and `{parent}{tag}2`. */
  lemma ChildrenShape(parent: Area, tag: LevelTag)
    ensures |ChildrenOf(parent, tag)| == 2
    ensures ChildrenOf(parent, tag)[0] == Area(parent.value + ("-" + tag.valueTag + "1"), parent.caption + tag.captionTag + "1")
    ensures ChildrenOf(parent, tag)[1] == Area(parent.value + ("-" + tag.valueTag + "2"), parent.caption + tag.captionTag + "2")
  {
  }

  /** Every child's value is its parent's value followed by `-`, and its caption starts with
      the parent's caption. */
  lemma ChildExtendsParent(parent: Area, tag: LevelTag, n: nat)
    requires n < 2
    ensures parent.value + "-" <= ChildrenOf(parent, tag)[n].value
    ensures parent.caption <= ChildrenOf(parent, tag)[n].caption
  {
  }

  /** Two children share a value only if they are the same child of parents with the same value. */
  lemma ChildValuesDiffer(p1: Area, n1: nat, p2: Area, n2: nat, tag: LevelTag)
    requires n1 < 2 && n2 < 2 && (p1.value != p2.value || n1 != n2)
    ensures ChildrenOf(p1, tag)[n1].value != ChildrenOf(p2, tag)[n2].value
  {
    ChildrenShape(p1, tag);
    ChildrenShape(p2, tag);
    var t1 := "-" + tag.valueTag + (if n1 == 0 then "1" else "2");
    var t2 := "-" + tag.valueTag + (if n2 == 0 then "1" else "2");
    assert ChildrenOf(p1, tag)[n1].value == p1.value + t1;
    assert ChildrenOf(p2, tag)[n2].value == p2.value + t2;
    if n1 != n2 {
      assert t1[|t1| - 1] != t2[|t2| - 1];
    }
    DistinctExtensions(p1.value, p2.value, t1, t2);
  }

  /** Children of distinct parents, and distinct children of one parent, have distinct values. */
  lemma ExpandDistinct(parents: seq<Area>, tag: LevelTag)
    requires Distinct(parents)
    ensures Distinct(Expand(parents, tag))
  {
    var r := Expand(parents, tag);
    forall j1, j2 | 0 <= j1 < j2 < |r| ensures r[j1].value != r[j2].value {
      ExpandAt(parents, tag, j1);
      ExpandAt(parents, tag, j2);
      ChildValuesDiffer(parents[j1 / 2], j1 % 2, parents[j2 / 2], j2 % 2, tag);
    }
  }

  /** Expanding a level with distinct codes gives the next level, again with distinct codes. */
  lemma LevelStep(depth: nat)
    requires 1 <= depth < Depth && Distinct(LevelList(depth - 1))
    ensures Distinct(LevelList(depth))
  {
    ExpandDistinct(LevelList(depth - 1), TagOf(depth));
  }

  /** Every level's codes are unique across the whole level: the provinces are distinct,
      and each expansion keeps the codes distinct. */
  lemma LevelDistinct(depth: nat)
    requires depth < Depth
    ensures Distinct(LevelList(depth))
  {
    ProvincesShape();
    var d := 0;
    while d < depth
      invariant d <= depth
      invariant Distinct(LevelList(d))
    {
      LevelStep(d + 1);
      d := d + 1;
    }
  }

  /** The parents of every catalog have distinct codes. */
  lemma ParentsDistinct(depth: nat)
    requires 1 <= depth < Depth
    ensures Distinct(Parents(depth))
  {
    var ps := Parents(depth);
    assert ps == LevelList(depth - 1);
    LevelDistinct(depth - 1);
  }

  /** A map keyed by the values of distinct options has one entry per option. */
  lemma MapSize(m: map<string, seq<Area>>, areas: seq<Area>)
    requires m.Keys == ValueSet(areas) && Distinct(areas)
    ensures |m| == |areas|
  {
    ValueSetCard(areas);
    assert |m| == |m.Keys|;
  }

  /** The accumulation over distinct parents: one key per parent, each mapped to that
      parent's two children. */
  lemma AttachShape(parents: seq<Area>, tag: LevelTag)
    requires Distinct(parents)
    ensures Generate(parents, tag).Keys == ValueSet(parents)
    ensures |Generate(parents, tag)| == |parents|
    ensures forall i :: 0 <= i < |parents| ==>
      parents[i].value in Generate(parents, tag) &&
      Generate(parents, tag)[parents[i].value] == ChildrenOf(parents[i], tag)
  {
    var m := Generate(parents, tag);
    AttachKeys(map[], parents, tag);
    MapSize(m, parents);
    forall i | 0 <= i < |parents|
      ensures parents[i].value in m && m[parents[i].value] == ChildrenOf(parents[i], tag)
    {
      AttachAt(map[], parents, tag, i);
    }
  }

  /** Every key of the accumulation over distinct parents is some parent's value. */
  lemma AttachParent(parents: seq<Area>, tag: LevelTag, k: string) returns (i: nat)
    requires Distinct(parents) && k in Generate(parents, tag)
    ensures i < |parents| && parents[i].value == k
    ensures Generate(parents, tag)[k] == ChildrenOf(parents[i], tag)
  {
    AttachShape(parents, tag);
    ValueSetMembers(parents);
    i :| 0 <= i < |parents| && parents[i].value == k;
  }


  /** Over distinct parents, the values held in the accumulation are exactly the values of
      `Expand`, the next level's list. */
  lemma AttachValuesAreExpand(parents: seq<Area>, tag: LevelTag)
    requires Distinct(parents)
    ensures forall k, n :: k in Generate(parents, tag) && 0 <= n < |Generate(parents, tag)[k]| ==>
      Generate(parents, tag)[k][n].value in ValueSet(Expand(parents, tag))
    ensures forall c :: c in ValueSet(Expand(parents, tag)) ==>
      exists k, n :: k in Generate(parents, tag) && 0 <= n < |Generate(parents, tag)[k]| &&
        Generate(parents, tag)[k][n].value == c
  {
    var m: map<string, seq<Area>> := Generate(parents, tag);
    var qs := Expand(parents, tag);
    ValueSetMembers(qs);
    forall k: string, n: int | k in m && 0 <= n < |m[k]| ensures m[k][n].value in ValueSet(qs) {
      var i := AttachParent(parents, tag, k);
      ExpandAt(parents, tag, 2 * i + n);
      assert m[k][n] == qs[2 * i + n];
    }
    AttachShape(parents, tag);
    forall c | c in ValueSet(qs)
      ensures exists k, n :: k in m && 0 <= n < |m[k]| && m[k][n].value == c
    {
      var j :| 0 <= j < |qs| && qs[j].value == c;
      ExpandAt(parents, tag, j);
      var k := parents[j / 2].value;
      assert m[k][j % 2] == qs[j];
    }
  }

  /** The keys of a level's catalog are exactly the codes of the level above, one per code,
      and each maps to that parent's two children. */
  lemma CatalogShape(depth: nat)
    requires 1 <= depth < Depth
    ensures Catalog(depth).Keys == ValueSet(Parents(depth))
    ensures |Catalog(depth)| == |Parents(depth)|
    ensures forall i :: 0 <= i < |Parents(depth)| ==>
      Parents(depth)[i].value in Catalog(depth) &&
      Catalog(depth)[Parents(depth)[i].value] == ChildrenOf(Parents(depth)[i], TagOf(depth))
  {
    ParentsDistinct(depth);
    AttachShape(Parents(depth), TagOf(depth));
  }

  /** Each catalog entry holds two options whose values extend the key with `-`. */
  lemma CatalogEntry(depth: nat, k: string)
    requires 1 <= depth < Depth && k in Catalog(depth)
    ensures |Catalog(depth)[k]| == 2
    ensures forall o :: o in Catalog(depth)[k] ==> k + "-" <= o.value
  {
    var ps, tag := Parents(depth), TagOf(depth);
    ParentsDistinct(depth);
    var i := AttachParent(ps, tag, k);
    ChildExtendsParent(ps[i], tag, 0);
    ChildExtendsParent(ps[i], tag, 1);
  }

  /** The sizes of the five levels: 10, 20, 40, 80 and 160 options; the four catalogs
      have 10, 20, 40 and 80 keys. */
  lemma LevelSizes()
    ensures |LevelList(0)| == 10 && |LevelList(1)| == 20 && |LevelList(2)| == 40
    ensures |LevelList(3)| == 80 && |LevelList(4)| == 160
    ensures |Cities()| == 10 && |Districts()| == 20 && |Streets()| == 40 && |Villages()| == 80
  {
    CatalogShape(1);
    CatalogShape(2);
    CatalogShape(3);
    CatalogShape(4);
  }

  /** The keys of the next catalog are exactly the option values of this one,
      across all of its parents. */
  lemma NextKeysAreChildren(depth: nat)
    requires 1 <= depth < Depth - 1
    ensures Catalog(depth + 1).Keys ==
      set k, n | k in Catalog(depth) && 0 <= n < |Catalog(depth)[k]| :: Catalog(depth)[k][n].value
  {
    var ps, tag := Parents(depth), TagOf(depth);
    var m: map<string, seq<Area>> := Catalog(depth);
    var next: map<string, seq<Area>> := Catalog(depth + 1);
    var qs := Parents(depth + 1);
    assert qs == LevelList(depth);
    assert qs == Expand(ps, tag);
    ParentsDistinct(depth);
    AttachValuesAreExpand(ps, tag);
    CatalogShape(depth + 1);
    assert next.Keys == ValueSet(Expand(ps, tag));
    assert next.Keys == set k, n | k in m && 0 <= n < |m[k]| :: m[k][n].value;
  }

  /** Codes are unique within a level: two options of a catalog share a value only if
      they are the same option of the same parent. */
  lemma CodesUnique(depth: nat)
    requires 1 <= depth < Depth
    ensures forall k1, n1, k2, n2 ::
      (k1 in Catalog(depth) && k2 in Catalog(depth) &&
       0 <= n1 < |Catalog(depth)[k1]| && 0 <= n2 < |Catalog(depth)[k2]| &&
       (k1 != k2 || n1 != n2)) ==> Catalog(depth)[k1][n1].value != Catalog(depth)[k2][n2].value
  {
    var ps, tag := Parents(depth), TagOf(depth);
    var m: map<string, seq<Area>> := Catalog(depth);
    ParentsDistinct(depth);
    forall k1: string, n1: int, k2: string, n2: int |
      k1 in m && k2 in m && 0 <= n1 < |m[k1]| && 0 <= n2 < |m[k2]| && (k1 != k2 || n1 != n2)
      ensures m[k1][n1].value != m[k2][n2].value
    {
      var i1 := AttachParent(ps, tag, k1);
      var i2 := AttachParent(ps, tag, k2);
      ChildValuesDiffer(ps[i1], n1, ps[i2], n2, tag);
    }
  }

  /** `Object.values` of a catalog, in insertion order, is `Groups` of its parents: the
      i-th value is the entry of the i-th parent. */
  lemma GroupsAreCatalogValues(depth: nat)
    requires 1 <= depth < Depth
    ensures |Groups(Parents(depth), TagOf(depth))| == |Catalog(depth)|
    ensures forall i :: 0 <= i < |Parents(depth)| ==>
      Parents(depth)[i].value in Catalog(depth) &&
      Groups(Parents(depth), TagOf(depth))[i] == Catalog(depth)[Parents(depth)[i].value]
  {
    CatalogShape(depth);
  }

  /** Every province code starts with `province`. */
  lemma ProvinceCodePrefix(code: string)
    requires code in ValueSet(Provinces())
    ensures "province" <= code
  {
    ValueSetMembers(Provinces());
    var i :| 0 <= i < |Provinces()| && Provinces()[i].value == code;
    assert Provinces()[i] == Province(i + 1);
    assert ("province" + Decimal(i + 1))[..8] == "province";
  }

  /** One catalog entry: the key of the i-th parent maps to that parent's two children. */
  lemma CatalogAt(depth: nat, i: nat)
    requires 1 <= depth < Depth && i < |Parents(depth)|
    ensures Parents(depth)[i].value in Catalog(depth)
    ensures Catalog(depth)[Parents(depth)[i].value] == ChildrenOf(Parents(depth)[i], TagOf(depth))
  {
    ParentsDistinct(depth);
    AttachAt(map[], Parents(depth), TagOf(depth), i);
  }

  /** The cities of any province: `{p}-city1` / `{p}市1` and `{p}-city2` / `{p}市2`. */
  lemma CityChildren(p: Area)
    ensures ChildrenOf(p, TagOf(1)) ==
      [Area(p.value + "-city1", p.caption + "市1"), Area(p.value + "-city2", p.caption + "市2")]
  {
    ChildrenShape(p, TagOf(1));
    assert "-" + "city" + "1" == "-city1";
    assert "-" + "city" + "2" == "-city2";
    assert p.caption + "市" + "1" == p.caption + "市1";
    assert p.caption + "市" + "2" == p.caption + "市2";
  }

  /** The first province and its two cities, spelled out. */
  lemma FirstProvinceCities()
    ensures Provinces()[0] == Area("province1", "省1")
    ensures "province1" in Cities()
    ensures Cities()["province1"] == [Area("province1-city1", "省1市1"), Area("province1-city2", "省1市2")]
  {
    var ps := Parents(1);
    assert ps == Provinces();
    var p := ps[0];
    assert p == Province(1);
    assert Decimal(1) == "1";
    assert p == Area("province1", "省1");
    CatalogAt(1, 0);
    CityChildren(p);
    assert "province1" + "-city1" == "province1-city1";
    assert "province1" + "-city2" == "province1-city2";
    assert "省1" + "市1" == "省1市1";
    assert "省1" + "市2" == "省1市2";
  }

  /** The districts of any city: `{c}-district1` / `{c}区1` and `{c}-district2` / `{c}区2`. */
  lemma DistrictChildren(c: Area)
    ensures ChildrenOf(c, TagOf(2)) ==
      [Area(c.value + "-district1", c.caption + "区1"), Area(c.value + "-district2", c.caption + "区2")]
  {
    ChildrenShape(c, TagOf(2));
    assert "-" + "district" + "1" == "-district1";
    assert "-" + "district" + "2" == "-district2";
    assert c.caption + "区" + "1" == c.caption + "区1";
    assert c.caption + "区" + "2" == c.caption + "区2";
  }

  /** The streets of any district: `{d}-street1` / `{d}街道1` and `{d}-street2` / `{d}街道2`. */
  lemma StreetChildren(d: Area)
    ensures ChildrenOf(d, TagOf(3)) ==
      [Area(d.value + "-street1", d.caption + "街道1"), Area(d.value + "-street2", d.caption + "街道2")]
  {
    ChildrenShape(d, TagOf(3));
    assert "-" + "street" + "1" == "-street1";
    assert "-" + "street" + "2" == "-street2";
    assert d.caption + "街道" + "1" == d.caption + "街道1";
    assert d.caption + "街道" + "2" == d.caption + "街道2";
  }

  /** The villages of any street: `{s}-village1` / `{s}村1` and `{s}-village2` / `{s}村2`. */
  lemma VillageChildren(s: Area)
    ensures ChildrenOf(s, TagOf(4)) ==
      [Area(s.value + "-village1", s.caption + "村1"), Area(s.value + "-village2", s.caption + "村2")]
  {
    ChildrenShape(s, TagOf(4));
    assert "-" + "village" + "1" == "-village1";
    assert "-" + "village" + "2" == "-village2";
    assert s.caption + "村" + "1" == s.caption + "村1";
    assert s.caption + "村" + "2" == s.caption + "村2";
  }

  /** Looking a code up in a catalog: it is a key exactly when it is a code of the level
      above, and then its entry holds two options that extend the code with `-`. */
  lemma CatalogLookup(depth: nat, key: string)
    requires 1 <= depth < Depth
    ensures key in Catalog(depth) <==> key in ValueSet(Parents(depth))
    ensures key in Catalog(depth) ==> |Catalog(depth)[key]| == 2
    ensures key in Catalog(depth) ==> forall o :: o in Catalog(depth)[key] ==> key + "-" <= o.value
  {
    CatalogShape(depth);
    if key in Catalog(depth) {
      CatalogEntry(depth, key);
    }
  }
}
