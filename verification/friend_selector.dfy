/**
 * Choosing the friends a good fortune is shared with: toggling one id in
 * or out of the selection, and the select-all / deselect-all button.
 */
module FriendSelector {
  import opened Types
  import opened Sequences

  function IsNot(id: string): string -> bool
  {
    (x: string) => x != id
  }

  /** The ids a selection holds, ignoring order and repetition. */
  function Elements(s: seq<string>): set<string>
  {
    set x | x in s
  }

  /** Toggling is symmetric difference on the set of selected ids: a
      selected id is taken out (every occurrence of it), an unselected one
      is added, at the end. */
  function Toggle(selected: seq<string>, id: string): (r: seq<string>)
    ensures Elements(r) == if id in selected then Elements(selected) - {id} else Elements(selected) + {id}
    ensures id !in selected ==> r == selected + [id]
  {
    if id in selected then
      FilterMembers(selected, IsNot(id));
      Filter(selected, IsNot(id))
    else selected + [id]
  }

  /** Taking out an id that occurs in the first part of a split selection
      leaves the second part filtered the same way, in its order. */
  lemma ToggleOutKeepsOrder(before: seq<string>, after: seq<string>, id: string)
    requires id in before
    ensures Toggle(before + after, id) == Toggle(before, id) + Filter(after, IsNot(id))
  {
    FilterConcat(before, after, IsNot(id));
  }

  /** Taking an id out keeps every other id in its place and order: what
      precedes the first occurrence is kept as it is, and what follows it
      loses every further occurrence and nothing else. */
  lemma ToggleOutPrefix(a: seq<string>, b: seq<string>, id: string)
    requires id !in a
    ensures Toggle(a + [id] + b, id) == a + Filter(b, IsNot(id))
  {
    assert id in a + [id] + b;
    FilterConcat(a + [id], b, IsNot(id));
    FilterConcat(a, [id], IsNot(id));
    FilterAll(a, IsNot(id));
  }

  /** Toggling an unselected id twice restores the selection. */
  lemma {:induction false} ToggleTwiceRestores(selected: seq<string>, id: string)
    requires id !in selected
    ensures Toggle(Toggle(selected, id), id) == selected
  {
    var once := selected + [id];
    assert id in once;
    assert once[..|selected|] == selected;
    assert !IsNot(id)(once[|selected|]);
    FilterAll(selected, IsNot(id));
  }

  /** Toggling never creates a repeated id. */
  lemma ToggleKeepsDistinct(selected: seq<string>, id: string)
    requires Distinct(selected)
    ensures Distinct(Toggle(selected, id))
  {
    if id in selected {
      FilterKeepsDistinctKeys(selected, IsNot(id), (x: string) => x);
      assert Map(selected, (x: string) => x) == selected;
      assert Map(Filter(selected, IsNot(id)), (x: string) => x) == Filter(selected, IsNot(id));
    } else {
      DistinctAppend(selected, id);
    }
  }

  /** Select-all: when as many ids are selected as there are friends the
      button deselects everything, otherwise it selects every friend, in
      registry order. Only the lengths are compared. */
  function SelectAll(selected: seq<string>, friends: seq<Friend>): (r: seq<string>)
    ensures |selected| == |friends| ==> r == []
    ensures |selected| != |friends| ==> |r| == |friends| && forall i :: 0 <= i < |friends| ==> r[i] == friends[i].id
  {
    if |selected| == |friends| then [] else Map(friends, FriendKey)
  }

  /** After a select-all that selected everything, pressing again clears. */
  lemma SelectAllTwice(selected: seq<string>, friends: seq<Friend>)
    requires |selected| != |friends|
    ensures SelectAll(SelectAll(selected, friends), friends) == []
  {
  }

  /** Because only lengths are compared, a selection of the right size that
      misses a friend (here: one friend picked twice) is cleared rather than
      completed. */
  lemma SelectAllComparesLengthsOnly(a: Friend, b: Friend)
    requires a.id != b.id
    ensures var selected := [a.id, a.id];
      b.id !in selected && SelectAll(selected, [a, b]) == []
  {
  }
}
