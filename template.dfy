/**
 A fixed text template: literal pieces with one value placed between each
 neighbouring pair, as a chain of f-string pieces lays them out. The lemmas
 say where each value lands in the result, so that "the message embeds these
 values in this order" can be stated as positions.
 */
module Template {

  /** lits[0] + vals[0] + lits[1] + vals[1] + ... + lits[|vals|] */
  function Fill(lits: seq<string>, vals: seq<string>): string
    requires |lits| == |vals| + 1
    decreases |vals|
  {
    if vals == [] then lits[0] else lits[0] + vals[0] + Fill(lits[1..], vals[1..])
  }

  /** Where vals[k] starts in Fill(lits, vals): after every literal up to and
      including lits[k] and every value before vals[k]. */
  function Offset(lits: seq<string>, vals: seq<string>, k: nat): nat
    requires |lits| == |vals| + 1 && k < |vals|
  {
    if k == 0 then |lits[0]| else Offset(lits, vals, k - 1) + |vals[k - 1]| + |lits[k]|
  }

  /** Dropping the first literal and the first value shifts every later
      offset by their two lengths. */
  lemma {:induction false} OffsetShift(lits: seq<string>, vals: seq<string>, k: nat)
    requires |lits| == |vals| + 1 && 0 < k < |vals|
    ensures Offset(lits, vals, k) == |lits[0]| + |vals[0]| + Offset(lits[1..], vals[1..], k - 1)
  {
    if k > 1 {
      OffsetShift(lits, vals, k - 1);
    }
  }

  /** Fill starts with its first literal. */
  lemma FillStartsWith(lits: seq<string>, vals: seq<string>)
    requires |lits| == |vals| + 1
    ensures |lits[0]| <= |Fill(lits, vals)| && Fill(lits, vals)[..|lits[0]|] == lits[0]
  {
  }

  /** Fill ends right after its last value and last literal. */
  lemma {:induction false} FillEndsAfterLast(lits: seq<string>, vals: seq<string>)
    requires |lits| == |vals| + 1 && vals != []
    ensures |Fill(lits, vals)| == Offset(lits, vals, |vals| - 1) + |vals[|vals| - 1]| + |lits[|vals|]|
    decreases |vals|
  {
    if |vals| > 1 {
      FillEndsAfterLast(lits[1..], vals[1..]);
      OffsetShift(lits, vals, |vals| - 1);
    }
  }

  /** Fill ends with its last value followed by its last literal. */
  lemma {:induction false} FillEndsWith(lits: seq<string>, vals: seq<string>)
    requires |lits| == |vals| + 1 && vals != []
    ensures |vals[|vals| - 1] + lits[|vals|]| <= |Fill(lits, vals)|
    ensures Fill(lits, vals)[|Fill(lits, vals)| - |vals[|vals| - 1] + lits[|vals|]|..] == vals[|vals| - 1] + lits[|vals|]
    decreases |vals|
  {
    var s := Fill(lits[1..], vals[1..]);
    assert Fill(lits, vals) == lits[0] + vals[0] + s;
    if |vals| > 1 {
      FillEndsWith(lits[1..], vals[1..]);
      var t := vals[|vals| - 1] + lits[|vals|];
      assert (lits[0] + vals[0] + s)[|lits[0] + vals[0] + s| - |t|..] == s[|s| - |t|..];
    }
  }

  /** A slice of the part after a prefix, seen from the whole string. */
  lemma SliceAfterPrefix(head: string, s: string, i: nat, j: nat)
    requires i <= j <= |s|
    ensures (head + s)[|head| + i..|head| + j] == s[i..j]
    ensures i == 0 ==> (head + s)[..|head| + j] == head + s[..j]
  {
  }

  /** The value vals[k] sits at Offset(k), with the literal before it just
      in front and the literal after it just behind. */
  lemma {:induction false} FillPlacesValue(lits: seq<string>, vals: seq<string>, k: nat)
    requires |lits| == |vals| + 1 && k < |vals|
    ensures |lits[k]| <= Offset(lits, vals, k)
    ensures Offset(lits, vals, k) + |vals[k]| + |lits[k + 1]| <= |Fill(lits, vals)|
    ensures Fill(lits, vals)[Offset(lits, vals, k) - |lits[k]|..Offset(lits, vals, k) + |vals[k]| + |lits[k + 1]|]
            == lits[k] + vals[k] + lits[k + 1]
    decreases k
  {
    var s := Fill(lits[1..], vals[1..]);
    var head := lits[0] + vals[0];
    assert Fill(lits, vals) == head + s;
    if k == 0 {
      FillStartsWith(lits[1..], vals[1..]);
      SliceAfterPrefix(head, s, 0, |lits[1]|);
    } else {
      FillPlacesValue(lits[1..], vals[1..], k - 1);
      OffsetShift(lits, vals, k);
      var o := Offset(lits[1..], vals[1..], k - 1);
      SliceAfterPrefix(head, s, o - |lits[k]|, o + |vals[k]| + |lits[k + 1]|);
    }
  }
}
