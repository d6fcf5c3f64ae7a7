/** The check item master editor page: its state (the patterns, the active tab
    and the save message) and the handlers that change it. */
module SettingsPage {
  import opened CheckItems
  import opened Store

  const SavedMessage: string := "保存しました"

  /** Tab `k` is labelled as the `k`-th default pattern: patterns are only
      ever appended and never renamed or removed. */
  ghost predicate NamedByPosition(ps: seq<Pattern>) {
    forall k :: 0 <= k < |ps| ==> ps[k].name == PatternName(k)
  }

  /** Labels assigned by position never clash. */
  lemma NamedByPositionDistinct(ps: seq<Pattern>)
    requires NamedByPosition(ps)
    ensures forall i, j :: 0 <= i < j < |ps| ==> ps[i].name != ps[j].name
  {
    forall i, j | 0 <= i < j < |ps| ensures ps[i].name != ps[j].name {
      if ps[i].name == ps[j].name {
        PatternNameInjective(i, j);
      }
    }
  }

  class Editor {
    var patterns: seq<Pattern>
    var activeTabIndex: nat
    var saveMessage: string
    /** Stands in for the random id generator: the next id to hand out. */
    var nextId: Id

    /** Between one and MaxPatterns patterns, a tab that exists, labels by position. */
    ghost predicate Valid()
      reads this
    {
      1 <= |patterns| <= MaxPatterns && activeTabIndex < |patterns| && NamedByPosition(patterns)
    }

    function ActiveItems(): seq<CheckItem>
      reads this
      requires Valid()
    {
      patterns[activeTabIndex].items
    }

    /** The page opens on one default pattern. */
    constructor ()
      ensures Valid()
      ensures patterns == [CreateDefaultPattern(0, 0)] && activeTabIndex == 0 && saveMessage == ""
      ensures nextId == 1 + InitialItemsCount
    {
      patterns := [CreateDefaultPattern(0, 0)];
      activeTabIndex := 0;
      saveMessage := "";
      nextId := 1 + InitialItemsCount;
    }

    /** Appends a default pattern and opens it, unless the cap is reached. */
    method AddPattern()
      requires Valid()
      modifies this
      ensures Valid()
      ensures old(|patterns|) >= MaxPatterns ==>
                patterns == old(patterns) && activeTabIndex == old(activeTabIndex) &&
                saveMessage == old(saveMessage) && nextId == old(nextId)
      ensures old(|patterns|) < MaxPatterns ==>
                patterns == old(patterns) + [CreateDefaultPattern(old(|patterns|), old(nextId))] &&
                activeTabIndex == old(|patterns|) && saveMessage == "" &&
                nextId == old(nextId) + 1 + InitialItemsCount
    {
      if |patterns| >= MaxPatterns {
        return;
      }
      var added := CreateDefaultPattern(|patterns|, nextId);
      nextId := nextId + 1 + InitialItemsCount;
      activeTabIndex := |patterns|;
      patterns := patterns + [added];
      saveMessage := "";
    }

    /** Opens the tab at `index` (the tab buttons only offer existing tabs). */
    method SelectTab(index: nat)
      requires Valid() && index < |patterns|
      modifies this`activeTabIndex
      ensures Valid() && activeTabIndex == index
    {
      activeTabIndex := index;
    }

    /** Appends one blank item to the active pattern. */
    method AddItem()
      requires Valid()
      modifies this
      ensures Valid() && activeTabIndex == old(activeTabIndex)
      ensures patterns == WithItemsAt(old(patterns), activeTabIndex, old(ActiveItems()) + [CreateItem(old(nextId))])
      ensures |patterns| == old(|patterns|)
      ensures forall k :: 0 <= k < |patterns| && k != activeTabIndex ==> patterns[k] == old(patterns)[k]
      ensures saveMessage == "" && nextId == old(nextId) + 1
    {
      var item := CreateItem(nextId);
      nextId := nextId + 1;
      patterns := WithItemsAt(patterns, activeTabIndex, ActiveItems() + [item]);
      saveMessage := "";
    }

    /** Replaces every active-pattern item carrying `id` by its image under `f`. */
    method UpdateItem(id: Id, f: CheckItem --> CheckItem)
      requires Valid() && Applicable(ActiveItems(), id, f)
      modifies this`patterns, this`saveMessage
      ensures Valid()
      ensures patterns == WithItemsAt(old(patterns), activeTabIndex, UpdateById(old(ActiveItems()), id, f))
      ensures |patterns| == old(|patterns|) && |ActiveItems()| == |old(ActiveItems())|
      ensures forall k :: 0 <= k < |patterns| && k != activeTabIndex ==> patterns[k] == old(patterns)[k]
      ensures forall k :: 0 <= k < |ActiveItems()| ==>
                ActiveItems()[k] == if old(ActiveItems())[k].id == id then f(old(ActiveItems())[k]) else old(ActiveItems())[k]
      ensures saveMessage == ""
    {
      patterns := WithItemsAt(patterns, activeTabIndex, UpdateById(ActiveItems(), id, f));
      saveMessage := "";
    }

    /** Removes every active-pattern item carrying `id`. */
    method DeleteItem(id: Id)
      requires Valid()
      modifies this`patterns, this`saveMessage
      ensures Valid()
      ensures patterns == WithItemsAt(old(patterns), activeTabIndex, DeleteById(old(ActiveItems()), id))
      ensures |patterns| == old(|patterns|)
      ensures forall k :: 0 <= k < |patterns| && k != activeTabIndex ==> patterns[k] == old(patterns)[k]
      ensures forall x :: x in ActiveItems() <==> x in old(ActiveItems()) && x.id != id
      ensures saveMessage == ""
    {
      patterns := WithItemsAt(patterns, activeTabIndex, DeleteById(ActiveItems(), id));
      saveMessage := "";
    }

    /** Reports the save. The storage write is outside the model; whether it
        succeeded is given. A write that throws leaves the handler before the
        message is set. */
    method Save(writeSucceeds: bool)
      requires Valid()
      modifies this`saveMessage
      ensures Valid()
      ensures saveMessage == if writeSucceeds then SavedMessage else old(saveMessage)
    {
      if writeSucceeds {
        saveMessage := SavedMessage;
      }
    }
  }

  /** The tab labels stay distinct however the editor is driven. */
  lemma EditorTabNamesDistinct(e: Editor)
    requires e.Valid()
    ensures forall i, j :: 0 <= i < j < |e.patterns| ==> e.patterns[i].name != e.patterns[j].name
  {
    NamedByPositionDistinct(e.patterns);
  }

  /** The sixth add is refused and a full editor keeps its five patterns. */
  method CapScenario()
  {
    var e := new Editor();
    e.AddPattern();
    e.AddPattern();
    e.AddPattern();
    e.AddPattern();
    assert |e.patterns| == MaxPatterns && e.activeTabIndex == 4;
    var before := e.patterns;
    e.AddPattern();
    assert e.patterns == before && e.activeTabIndex == 4;
  }

  /** A fresh item switched to single choice through the page: it gets one
      empty option and an empty selection, and the other items are untouched. */
  method ChoiceScenario()
  {
    var e := new Editor();
    var first, second := e.ActiveItems()[0], e.ActiveItems()[1];
    e.UpdateItem(first.id, (it: CheckItem) => ChangeResponseType(it, SingleChoice));
    assert e.ActiveItems()[0] == ChangeResponseType(first, SingleChoice);
    assert e.ActiveItems()[0].options == [""];
    assert e.ActiveItems()[0].normalValue == Some(SingleChoiceNormal(""));
    assert e.ActiveItems()[1] == second;
  }
}
