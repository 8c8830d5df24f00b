/** `Array.prototype.splice` as defined in section 23.1.3.31 of ECMA-262
    (14th edition), for integer `start` and `deleteCount` arguments, as a
    function from the array's old contents to its new contents. */
module ArraySplice {

  /** Steps 4 to 6: a negative start counts back from the end and stops at 0;
      a start past the end stops at the length. */
  function ActualStart(relativeStart: int, len: nat): (k: nat)
    ensures k <= len
    ensures 0 <= relativeStart <= len ==> k == relativeStart
    ensures len < relativeStart ==> k == len
    ensures relativeStart < 0 <= len + relativeStart ==> k == len + relativeStart
    ensures len + relativeStart < 0 ==> k == 0
  {
    if relativeStart < 0 then
      (if len + relativeStart < 0 then 0 else len + relativeStart)
    else if relativeStart < len then relativeStart
    else len
  }

  /** Step 10: the delete count is clamped between 0 and the number of
      elements from the actual start to the end. */
  function ActualDeleteCount(deleteCount: int, actualStart: nat, len: nat): (n: nat)
    requires actualStart <= len
    ensures actualStart + n <= len
    ensures deleteCount <= 0 ==> n == 0
    ensures 0 <= deleteCount <= len - actualStart ==> n == deleteCount
    ensures len - actualStart < deleteCount ==> n == len - actualStart
  {
    if deleteCount < 0 then 0
    else if deleteCount < len - actualStart then deleteCount
    else len - actualStart
  }

  /** The contents of the array after `splice(start, deleteCount, ...items)`:
      the elements before the actual start stay in place, the items follow,
      and the elements after the deleted run are shifted to close the gap. */
  function Spliced<T>(s: seq<T>, start: int, deleteCount: int, items: seq<T>): (r: seq<T>)
    ensures var k := ActualStart(start, |s|);
            var n := ActualDeleteCount(deleteCount, k, |s|);
            && |r| == |s| - n + |items|
            && (forall j :: 0 <= j < k ==> r[j] == s[j])
            && (forall j :: 0 <= j < |items| ==> r[k + j] == items[j])
            && (forall j :: k + |items| <= j < |r| ==> r[j] == s[j - |items| + n])
  {
    var k := ActualStart(start, |s|);
    var n := ActualDeleteCount(deleteCount, k, |s|);
    s[..k] + items + s[k + n..]
  }

  /** Inserting one element (`splice(i, 0, x)`) always lengthens the array
      by one and puts `x` at the actual start. */
  lemma InsertOne<T>(s: seq<T>, i: int, x: T)
    ensures var k := ActualStart(i, |s|);
            Spliced(s, i, 0, [x]) == s[..k] + [x] + s[k..]
  {
  }

  /** Removing one element (`splice(i, 1)`) takes out the element at the
      actual start if there is one, and otherwise changes nothing. */
  lemma RemoveOne<T>(s: seq<T>, i: int)
    ensures var k := ActualStart(i, |s|);
            Spliced(s, i, 1, []) == if k < |s| then s[..k] + s[k + 1..] else s
  {
  }

  /** Removing at the position where an element was just inserted gives back
      the original contents, whatever the index passed to the insertion. */
  lemma RemoveUndoesInsert<T>(s: seq<T>, i: int, x: T)
    ensures Spliced(Spliced(s, i, 0, [x]), ActualStart(i, |s|), 1, []) == s
  {
  }
}
