/** String and sequence helpers shared by the tree views: Python's str.join
    and reversed(). */
module Text {

  /** sep.join(parts) */
  function Join(sep: string, parts: seq<string>): string {
    if |parts| == 0 then ""
    else if |parts| == 1 then parts[0]
    else Join(sep, parts[..|parts| - 1]) + sep + parts[|parts| - 1]
  }

  lemma JoinSnoc(sep: string, parts: seq<string>, last: string)
    requires |parts| > 0
    ensures Join(sep, parts + [last]) == Join(sep, parts) + sep + last
  {
    assert (parts + [last])[..|parts|] == parts;
  }

  /** Joining one more part at the front puts it, then one separator, before the rest. */
  lemma {:induction false} JoinCons(sep: string, first: string, parts: seq<string>)
    requires |parts| > 0
    ensures Join(sep, [first] + parts) == first + sep + Join(sep, parts)
  {
    var all := [first] + parts;
    if |parts| > 1 {
      var init := parts[..|parts| - 1];
      assert all[..|all| - 1] == [first] + init;
      JoinCons(sep, first, init);
    } else {
      assert all == [first, parts[0]];
      assert all[..1] == [first];
    }
  }

  /** reversed(s) */
  function Reverse<T>(s: seq<T>): (r: seq<T>)
    ensures |r| == |s|
    ensures forall k :: 0 <= k < |r| ==> r[k] == s[|s| - 1 - k]
  {
    if s == [] then [] else Reverse(s[1..]) + [s[0]]
  }

  lemma ReverseSnoc<T>(s: seq<T>, x: T)
    ensures Reverse(s + [x]) == [x] + Reverse(s)
  {
    var l := Reverse(s + [x]);
    var r := [x] + Reverse(s);
    forall k | 0 <= k < |l| ensures l[k] == r[k] {
      if k > 0 {
        assert l[k] == s[|s| - k];
      }
    }
  }
}
