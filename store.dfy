/** Patterns and the item-list transformations behind the editor's store
    operations: default construction, replacing the active pattern's items,
    update by id (a map) and delete by id (a filter). */
module Store {
  import opened CheckItems
  import opened Numerals

  const MaxPatterns: nat := 5
  const InitialItemsCount: nat := 10
  const PatternNamePrefix: string := "パターン"

  datatype Pattern = Pattern(id: Id, name: string, items: seq<CheckItem>)

  /** `count` blank items with the consecutive ids `firstId`, `firstId + 1`, ... */
  function CreateDefaultItems(count: nat, firstId: Id): (r: seq<CheckItem>)
    ensures |r| == count
    ensures forall k :: 0 <= k < count ==> r[k] == CreateItem(firstId + k)
    decreases count
  {
    if count == 0 then [] else [CreateItem(firstId)] + CreateDefaultItems(count - 1, firstId + 1)
  }

  /** The tab label of the pattern at zero-based position `index`. */
  function PatternName(index: nat): string {
    PatternNamePrefix + NatToString(index + 1)
  }

  /** Different positions get different labels. */
  lemma PatternNameInjective(i: nat, j: nat)
    requires PatternName(i) == PatternName(j)
    ensures i == j
  {
    var n := |PatternNamePrefix|;
    assert PatternName(i)[n..] == NatToString(i + 1);
    assert PatternName(j)[n..] == NatToString(j + 1);
    NatToStringInjective(i + 1, j + 1);
  }

  /** The pattern appended at position `index`: it takes id `firstId` and its
      ten blank items take the next ten ids. */
  function CreateDefaultPattern(index: nat, firstId: Id): (r: Pattern)
    ensures r.id == firstId && r.name == PatternName(index)
    ensures |r.items| == InitialItemsCount
    ensures forall k :: 0 <= k < |r.items| ==> r.items[k] == CreateItem(firstId + 1 + k)
    ensures forall k :: 0 <= k < |r.items| ==> IsBlank(r.items[k]) && Consistent(r.items[k])
  {
    Pattern(firstId, PatternName(index), CreateDefaultItems(InitialItemsCount, firstId + 1))
  }

  /** The pattern list with the items of pattern `i` replaced (the store's
      setActivePatternItems); every other pattern is kept as it is. */
  function WithItemsAt(ps: seq<Pattern>, i: nat, items: seq<CheckItem>): (r: seq<Pattern>)
    ensures |r| == |ps|
    ensures forall j :: 0 <= j < |ps| ==> r[j].id == ps[j].id && r[j].name == ps[j].name
    ensures forall j :: 0 <= j < |ps| && j != i ==> r[j] == ps[j]
    ensures i < |ps| ==> r[i].items == items
    ensures i >= |ps| ==> r == ps
  {
    seq(|ps|, j requires 0 <= j < |ps| => if j == i then ps[j].(items := items) else ps[j])
  }

  /** The updater can be applied to every item carrying `id`. */
  ghost predicate Applicable(items: seq<CheckItem>, id: Id, f: CheckItem --> CheckItem) {
    forall k :: 0 <= k < |items| && items[k].id == id ==> f.requires(items[k])
  }

  /** Every item carrying `id` replaced by its image under `f`. */
  function UpdateById(items: seq<CheckItem>, id: Id, f: CheckItem --> CheckItem): (r: seq<CheckItem>)
    requires Applicable(items, id, f)
    ensures |r| == |items|
    ensures forall k :: 0 <= k < |items| ==> r[k] == if items[k].id == id then f(items[k]) else items[k]
  {
    if items == [] then []
    else [if items[0].id == id then f(items[0]) else items[0]] + UpdateById(items[1..], id, f)
  }

  /** Updating an id nobody carries changes nothing. */
  lemma UpdateAbsent(items: seq<CheckItem>, id: Id, f: CheckItem --> CheckItem)
    requires forall k :: 0 <= k < |items| ==> items[k].id != id
    ensures UpdateById(items, id, f) == items
  {
  }

  /** An updater that keeps ids and the item invariant keeps them for the list. */
  lemma UpdatePreservesInvariant(items: seq<CheckItem>, id: Id, f: CheckItem --> CheckItem)
    requires Applicable(items, id, f)
    requires forall k :: 0 <= k < |items| ==> Consistent(items[k])
    requires forall k :: 0 <= k < |items| && items[k].id == id ==>
               f(items[k]).id == id && Consistent(f(items[k]))
    ensures forall k :: 0 <= k < |items| ==>
              UpdateById(items, id, f)[k].id == items[k].id && Consistent(UpdateById(items, id, f)[k])
  {
  }

  /** The items whose id differs from `id`, in their original order. */
  function DeleteById(items: seq<CheckItem>, id: Id): (r: seq<CheckItem>)
    ensures |r| <= |items|
    ensures forall x :: x in r <==> x in items && x.id != id
  {
    if items == [] then []
    else if items[0].id == id then DeleteById(items[1..], id)
    else [items[0]] + DeleteById(items[1..], id)
  }

  /** Deleting an id nobody carries leaves the list unchanged. */
  lemma {:induction false} DeleteAbsent(items: seq<CheckItem>, id: Id)
    requires forall k :: 0 <= k < |items| ==> items[k].id != id
    ensures DeleteById(items, id) == items
  {
    if items != [] {
      DeleteAbsent(items[1..], id);
    }
  }

  /** The list shrinks exactly when some item carries the id. */
  lemma {:induction false} DeleteShrinksIffPresent(items: seq<CheckItem>, id: Id)
    ensures |DeleteById(items, id)| < |items| <==> exists k :: 0 <= k < |items| && items[k].id == id
  {
    if items != [] {
      DeleteShrinksIffPresent(items[1..], id);
      if items[0].id != id && exists k :: 0 <= k < |items[1..]| && items[1..][k].id == id {
        var k :| 0 <= k < |items[1..]| && items[1..][k].id == id;
        assert items[k + 1].id == id;
      }
      if exists k :: 0 <= k < |items| && items[k].id == id {
        var k :| 0 <= k < |items| && items[k].id == id;
        if k > 0 {
          assert items[1..][k - 1].id == id;
        }
      }
    }
  }

  /** Deletion works piecewise: this is what keeps the relative order. */
  lemma {:induction false} DeleteConcat(a: seq<CheckItem>, b: seq<CheckItem>, id: Id)
    ensures DeleteById(a + b, id) == DeleteById(a, id) + DeleteById(b, id)
  {
    if a != [] {
      assert (a + b)[1..] == a[1..] + b;
      DeleteConcat(a[1..], b, id);
    } else {
      assert a + b == b;
    }
  }

  /** With one item carrying the id, deletion cuts out exactly that item. */
  lemma DeleteUnique(items: seq<CheckItem>, id: Id, k: nat)
    requires k < |items| && items[k].id == id
    requires forall j :: 0 <= j < |items| && j != k ==> items[j].id != id
    ensures DeleteById(items, id) == items[..k] + items[k + 1..]
  {
    assert items == items[..k] + ([items[k]] + items[k + 1..]);
    DeleteConcat(items[..k], [items[k]] + items[k + 1..], id);
    DeleteConcat([items[k]], items[k + 1..], id);
    DeleteAbsent(items[..k], id);
    DeleteAbsent(items[k + 1..], id);
  }

  lemma DeleteIdempotent(items: seq<CheckItem>, id: Id)
    ensures DeleteById(DeleteById(items, id), id) == DeleteById(items, id)
  {
  }
}
