/**
 * The numbered-menu choices of `_select_language` and
 * `_select_and_start_lesson` (Licenta_aut_v2.py, lines 323-333 and
 * 346-356): a 1-based number is accepted when it is in range and selects the
 * element one below it; anything else is asked for again.
 */
module Menu {
  import opened Wrappers

  /** One line typed at a selection prompt, after `int()`: a number, or text `int()` rejects. */
  datatype Entry = Number(value: int) | NotANumber

  /** `1 <= choice <= count` (lines 326, 349). */
  predicate InRange(e: Entry, count: nat) {
    e.Number? && 1 <= e.value <= count
  }

  /** The zero-based position an accepted entry selects. */
  function ChoiceIndex(e: Entry, count: nat): (r: Option<nat>)
    ensures r.Some? <==> InRange(e, count)
    ensures r.Some? ==> r.value < count && r.value + 1 == e.value
  {
    if InRange(e, count) then Some(e.value - 1) else None
  }

  /** The position selected by the first accepted entry, if any entry is accepted. */
  function FirstValidChoice(entries: seq<Entry>, count: nat): (r: Option<nat>)
    ensures r.Some? ==> r.value < count
  {
    if entries == [] then None
    else if InRange(entries[0], count) then Some(entries[0].value - 1)
    else FirstValidChoice(entries[1..], count)
  }

  /** No position is selected exactly when no entry is in range. */
  lemma {:induction false} NoChoiceIffAllRejected(entries: seq<Entry>, count: nat)
    ensures FirstValidChoice(entries, count).None?
            <==> forall i :: 0 <= i < |entries| ==> !InRange(entries[i], count)
  {
    if entries != [] {
      NoChoiceIffAllRejected(entries[1..], count);
      assert forall i :: 1 <= i < |entries| ==> entries[i] == entries[1..][i - 1];
    }
  }

  /** The entry that selects is the first one in range; it selects one below its number. */
  lemma {:induction false} FirstInRangeSelects(entries: seq<Entry>, count: nat, j: nat)
    requires j < |entries| && InRange(entries[j], count)
    requires forall i :: 0 <= i < j ==> !InRange(entries[i], count)
    ensures FirstValidChoice(entries, count) == Some(entries[j].value - 1)
  {
    if j > 0 {
      FirstInRangeSelects(entries[1..], count, j - 1);
    }
  }

  /**
   * The `while True` prompt loop: read entries until one is in range. When
   * the entries run out first, nothing is selected (the program would go on
   * asking).
   */
  method ReadChoice(entries: seq<Entry>, count: nat) returns (choice: Option<nat>)
    ensures choice == FirstValidChoice(entries, count)
  {
    var i := 0;
    choice := None;
    while i < |entries|
      invariant 0 <= i <= |entries| && choice == None
      invariant FirstValidChoice(entries, count) == FirstValidChoice(entries[i..], count)
    {
      assert entries[i..][0] == entries[i] && entries[i..][1..] == entries[i + 1..];
      choice := ChoiceIndex(entries[i], count);
      if choice.Some? {
        return;
      }
      i := i + 1;
    }
    assert entries[i..] == [];
  }
}
