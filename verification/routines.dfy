/** The bedtime checklist of src/components/BedtimeRoutines.tsx: toggling,
    adding, deleting and resetting items, and the completion progress. */
module Routines {
  import opened Numbers
  import opened Seqs

  datatype RoutineItem = RoutineItem(id: string, title: string, completed: bool)

  /** The stored checklist together with the text of the "add item" box. */
  datatype RoutineForm = RoutineForm(items: seq<RoutineItem>, draft: string)

  /** `toggleItem`: every item with the id flips, nothing else changes. */
  function Toggle(items: seq<RoutineItem>, id: string): (r: seq<RoutineItem>)
    ensures |r| == |items|
    ensures forall i :: 0 <= i < |items| ==>
      && r[i].id == items[i].id && r[i].title == items[i].title
      && (r[i].completed <==> (items[i].id == id) != items[i].completed)
  {
    seq(|items|, i requires 0 <= i < |items| =>
      if items[i].id == id then items[i].(completed := !items[i].completed) else items[i])
  }

  /** Toggling the same id twice restores the list. */
  lemma ToggleInvolutive(items: seq<RoutineItem>, id: string)
    ensures Toggle(Toggle(items, id), id) == items
  {
    var r := Toggle(Toggle(items, id), id);
    assert forall i :: 0 <= i < |items| ==> r[i] == items[i];
  }

  /** The characters `String.prototype.trim` removes: the ECMAScript white
      space and line terminators. */
  predicate IsJsSpace(c: char)
  {
    || ('\U{0009}' <= c <= '\U{000D}')
    || c == '\U{0020}' || c == '\U{00A0}' || c == '\U{1680}'
    || ('\U{2000}' <= c <= '\U{200A}')
    || c == '\U{2028}' || c == '\U{2029}' || c == '\U{202F}' || c == '\U{205F}'
    || c == '\U{3000}' || c == '\U{FEFF}'
  }

  /** How many white-space characters open the text. */
  function Leading(s: string): (n: nat)
    ensures n <= |s|
    ensures forall i :: 0 <= i < n ==> IsJsSpace(s[i])
    ensures n < |s| ==> !IsJsSpace(s[n])
  {
    if |s| > 0 && IsJsSpace(s[0]) then 1 + Leading(s[1..]) else 0
  }

  /** How many white-space characters close the text. */
  function Trailing(s: string): (n: nat)
    ensures n <= |s|
    ensures forall i :: |s| - n <= i < |s| ==> IsJsSpace(s[i])
    ensures n < |s| ==> !IsJsSpace(s[|s| - n - 1])
  {
    if |s| > 0 && IsJsSpace(s[|s| - 1]) then 1 + Trailing(s[..|s| - 1]) else 0
  }

  /** Trailing white space of a suffix is trailing white space of the whole. */
  lemma TrailingOfSuffix(s: string, l: nat)
    requires l <= |s|
    ensures forall i :: |s| - Trailing(s[l..]) <= i < |s| ==> IsJsSpace(s[i])
  {
    var a := s[l..];
    forall i | |s| - Trailing(a) <= i < |s|
      ensures IsJsSpace(s[i])
    {
      assert s[i] == a[i - l];
    }
  }

  /** `trim()`: the text between the leading and the trailing white space,
      which is empty when the text is all white space. */
  function Trim(s: string): (r: string)
    ensures Leading(s) + |r| <= |s| && r == s[Leading(s)..Leading(s) + |r|]
    ensures forall i :: 0 <= i < Leading(s) ==> IsJsSpace(s[i])
    ensures forall i :: Leading(s) + |r| <= i < |s| ==> IsJsSpace(s[i])
    ensures |r| > 0 ==> !IsJsSpace(r[0]) && !IsJsSpace(r[|r| - 1])
  {
    var l := Leading(s);
    TrailingOfSuffix(s, l);
    s[l..|s| - Trailing(s[l..])]
  }

  /** The trimmed title is empty exactly when the box holds only white
      space. */
  lemma TrimEmptyIffBlank(s: string)
    ensures Trim(s) == "" <==> forall i :: 0 <= i < |s| ==> IsJsSpace(s[i])
  {
    var r := Trim(s);
    var l := Leading(s);
    if |r| > 0 {
      assert r[0] == s[l];
    }
  }

  /** Trimming twice trims nothing more. */
  lemma TrimIdempotent(s: string)
    ensures Trim(Trim(s)) == Trim(s)
  {
    var t := Trim(s);
    if |t| > 0 {
      assert Leading(t) == 0;
      assert t[0..] == t;
      assert Trailing(t) == 0;
    }
  }

  /** `addItem`: a blank title is ignored; otherwise one unchecked item with
      the trimmed title is appended and the box is cleared. `newId` stands
      for `Date.now().toString()`. */
  function AddItem(f: RoutineForm, newId: string): (r: RoutineForm)
    ensures Trim(f.draft) == "" ==> r == f
    ensures Trim(f.draft) != "" ==>
      && r.items == f.items + [RoutineItem(newId, Trim(f.draft), false)]
      && r.draft == ""
  {
    var title := Trim(f.draft);
    if title == "" then f
    else RoutineForm(f.items + [RoutineItem(newId, title, false)], "")
  }

  /** A box holding only white space adds nothing. */
  lemma BlankTitleAddsNothing(items: seq<RoutineItem>, draft: string, newId: string)
    requires forall i :: 0 <= i < |draft| ==> IsJsSpace(draft[i])
    ensures AddItem(RoutineForm(items, draft), newId) == RoutineForm(items, draft)
  {
    TrimEmptyIffBlank(draft);
  }

  lemma {:induction false} LeadingOfPadded(pre: string, t: string)
    requires forall i :: 0 <= i < |pre| ==> IsJsSpace(pre[i])
    requires |t| > 0 ==> !IsJsSpace(t[0])
    ensures Leading(pre + t) == |pre|
    decreases |pre|
  {
    if |pre| == 0 {
      assert pre + t == t;
    } else {
      assert (pre + t)[0] == pre[0];
      assert (pre + t)[1..] == pre[1..] + t;
      LeadingOfPadded(pre[1..], t);
    }
  }

  lemma {:induction false} TrailingOfPadded(t: string, post: string)
    requires forall i :: 0 <= i < |post| ==> IsJsSpace(post[i])
    requires |t| > 0 ==> !IsJsSpace(t[|t| - 1])
    ensures Trailing(t + post) == |post|
    decreases |post|
  {
    if |post| == 0 {
      assert t + post == t;
    } else {
      var n := |t + post|;
      assert (t + post)[n - 1] == post[|post| - 1];
      assert (t + post)[..n - 1] == t + post[..|post| - 1];
      TrailingOfPadded(t, post[..|post| - 1]);
    }
  }

  /** A title padded with white space on either side is stored without the
      padding. */
  lemma AddTrimsTitle(items: seq<RoutineItem>, pre: string, title: string, post: string, newId: string)
    requires forall i :: 0 <= i < |pre| ==> IsJsSpace(pre[i])
    requires forall i :: 0 <= i < |post| ==> IsJsSpace(post[i])
    requires |title| > 0 && !IsJsSpace(title[0]) && !IsJsSpace(title[|title| - 1])
    ensures AddItem(RoutineForm(items, pre + title + post), newId)
      == RoutineForm(items + [RoutineItem(newId, title, false)], "")
  {
    var s := pre + title + post;
    assert s == pre + (title + post);
    assert (title + post)[0] == title[0];
    LeadingOfPadded(pre, title + post);
    assert s[|pre|..] == title + post;
    TrailingOfPadded(title, post);
    assert s[|pre|..|s| - |post|] == title;
  }

  /** `deleteItem`: the items with the id go, the rest stay in order. */
  function DeleteItem(items: seq<RoutineItem>, id: string): (r: seq<RoutineItem>)
    ensures forall i :: 0 <= i < |r| ==> r[i].id != id && r[i] in items
    ensures forall i :: 0 <= i < |items| && items[i].id != id ==> items[i] in r
  {
    Filter(items, (it: RoutineItem) => it.id != id)
  }

  /** Deleting keeps the relative order: the survivors of a concatenation
      are the survivors of each part, in turn. */
  lemma DeleteKeepsOrder(a: seq<RoutineItem>, b: seq<RoutineItem>, id: string)
    ensures DeleteItem(a + b, id) == DeleteItem(a, id) + DeleteItem(b, id)
  {
    FilterConcat(a, b, (it: RoutineItem) => it.id != id);
  }

  /** Deleting an id nobody has changes nothing; deleting twice is deleting
      once. */
  lemma DeleteAbsentOrTwice(items: seq<RoutineItem>, id: string)
    ensures (forall i :: 0 <= i < |items| ==> items[i].id != id) ==> DeleteItem(items, id) == items
    ensures DeleteItem(DeleteItem(items, id), id) == DeleteItem(items, id)
  {
    if forall i :: 0 <= i < |items| ==> items[i].id != id {
      FilterKeepsAll(items, (it: RoutineItem) => it.id != id);
    }
    var once := DeleteItem(items, id);
    FilterKeepsAll(once, (it: RoutineItem) => it.id != id);
  }

  /** `resetRoutine`: every box unchecked, nothing else changed. */
  function Reset(items: seq<RoutineItem>): (r: seq<RoutineItem>)
    ensures |r| == |items|
    ensures forall i :: 0 <= i < |items| ==>
      r[i].id == items[i].id && r[i].title == items[i].title && !r[i].completed
  {
    seq(|items|, i requires 0 <= i < |items| => items[i].(completed := false))
  }

  lemma ResetIdempotent(items: seq<RoutineItem>)
    ensures Reset(Reset(items)) == Reset(items)
  {
    var a := Reset(Reset(items));
    var b := Reset(items);
    assert forall i :: 0 <= i < |items| ==> a[i] == b[i];
  }

  predicate IsDone(it: RoutineItem)
  {
    it.completed
  }

  function CompletedCount(items: seq<RoutineItem>): nat
  {
    |Filter(items, IsDone)|
  }

  predicate AllDone(items: seq<RoutineItem>)
  {
    forall i :: 0 <= i < |items| ==> items[i].completed
  }

  /** Every item is done exactly when the completed count is the length. */
  lemma CountIsLengthIffAllDone(items: seq<RoutineItem>)
    ensures CompletedCount(items) <= |items|
    ensures CompletedCount(items) == |items| <==> AllDone(items)
  {
    FilterSplits(items, IsDone);
    if AllDone(items) {
      FilterKeepsAll(items, IsDone);
    }
  }

  /** The progress bar: the completed share in percent, 0 for no items. */
  function Progress(items: seq<RoutineItem>): (r: real)
    ensures 0.0 <= r <= 100.0
    ensures |items| == 0 ==> r == 0.0
    ensures |items| > 0 ==> r * |items| as real == CompletedCount(items) as real * 100.0
  {
    if |items| == 0 then 0.0
    else
      CountIsLengthIffAllDone(items);
      Percentage(CompletedCount(items), |items|)
  }

  /** The "routine is complete" banner. */
  predicate Banner(items: seq<RoutineItem>)
  {
    CompletedCount(items) == |items| && |items| > 0
  }

  /** The banner shows exactly when the list is non-empty and all ticked,
      which is exactly when the bar is full. */
  lemma BannerIffFull(items: seq<RoutineItem>)
    ensures Banner(items) <==> |items| > 0 && AllDone(items)
    ensures Banner(items) <==> Progress(items) == 100.0
  {
    CountIsLengthIffAllDone(items);
  }

  /** Reset empties the bar. */
  lemma ResetClearsProgress(items: seq<RoutineItem>)
    ensures CompletedCount(Reset(items)) == 0
    ensures Progress(Reset(items)) == 0.0
  {
    var r := Reset(items);
    FilterKeepsNone(r, IsDone);
  }
}
