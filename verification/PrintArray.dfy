/** `print_array`: the requested range of an array of structs as JSON. */
module PrintArray {
  import opened Common
  import opened JsonLookup
  import opened JsonScan
  import opened JsonStruct

  function Join(items: seq<string>): string {
    if items == [] then ""
    else if |items| == 1 then items[0]
    else items[0] + "," + Join(items[1..])
  }

  /** The elements with an index from `start` up to, and not including, `end`. */
  function Between(items: seq<string>, start: nat, end: nat): seq<string> {
    if start < end <= |items| then items[start..end] else []
  }

  /** The elements of `start` to `stop`, both included, cut at the end of the array. */
  function Range(items: seq<string>, start: nat, stop: nat): seq<string> {
    Between(items, start, if stop < |items| then stop + 1 else |items|)
  }

  /** What a request for `start` to `stop` is answered with. */
  function ArrayText(items: seq<string>, start: nat, stop: nat): string {
    if start != stop then "[" + Join(Range(items, start, stop)) + "]"
    else if start < |items| then items[start]
    else "null"
  }

  ghost predicate Printed(attrs: seq<Attr>, elems: seq<seq<byte>>) {
    forall i, k :: 0 <= i < |attrs| && 0 <= k < |elems| ==> Inside(attrs[i], |elems[k]|)
  }

  ghost function Texts(f: Doubles, attrs: seq<Attr>, elems: seq<seq<byte>>): (r: seq<string>)
    requires Printed(attrs, elems)
    ensures |r| == |elems|
    ensures forall k :: 0 <= k < |elems| ==> r[k] == ObjectText(Members(f, attrs, elems[k]))
  {
    seq(|elems|, k requires 0 <= k < |elems| => ObjectText(Members(f, attrs, elems[k])))
  }

  lemma {:induction false} JoinSnoc(items: seq<string>, t: string)
    ensures Join(items + [t]) == (if items == [] then t else Join(items) + "," + t)
    decreases |items|
  {
    if items != [] {
      JoinSnoc(items[1..], t);
      assert (items + [t])[1..] == items[1..] + [t];
    }
  }

  lemma OneMore(items: seq<string>, start: nat, i: nat)
    requires start <= i < |items|
    ensures var b := Join(Between(items, start, i));
            Join(Between(items, start, i + 1)) == if i == start then items[i] else b + "," + items[i]
  {
    assert items[start..i + 1] == items[start..i] + [items[i]];
    JoinSnoc(items[start..i], items[i]);
    hide Join;
  }

  /** One element; it is never the empty text. */
  method PrintElement(f: Doubles, attrs: seq<Attr>, data: seq<byte>) returns (out: string, len: nat)
    requires forall i :: 0 <= i < |attrs| ==> Inside(attrs[i], |data|)
    ensures out == ObjectText(Members(f, attrs, data)) && len == |out|
  {
    hide MembersText, Members;
    var text, n := PrintStruct(f, attrs, data);
    out, len := "{" + text + "}", n + 2;
  }

  /** What has been printed when the loop is at index `i`. */
  predicate Listed(items: seq<string>, start: nat, stop: nat, i: nat, out: string) {
    && start <= i < WORD && (i == start || (i <= stop + 1 && i <= |items|))
    && out == (if start != stop then "[" else "") + Join(Between(items, start, i))
  }

  lemma ListedFirst(items: seq<string>, start: nat, stop: nat)
    requires start < WORD
    ensures Listed(items, start, stop, start, if start != stop then "[" else "")
  {
  }

  lemma ListedNext(items: seq<string>, start: nat, stop: nat, i: nat, out: string)
    requires Listed(items, start, stop, i, out) && i <= stop && i < |items| < WORD
    ensures start <= i && i + 1 < WORD
    ensures Listed(items, start, stop, i + 1, out + (if i > start then "," else "") + items[i])
  {
    OneMore(items, start, i);
    hide Join, Between;
  }

  /** Where the loop ends, the whole range has been printed, and the rest is brackets. */
  lemma ListedAll(items: seq<string>, start: nat, stop: nat, i: nat, out: string)
    requires Listed(items, start, stop, i, out) && (i > stop || i >= |items|)
    requires forall k :: 0 <= k < |items| ==> items[k] != ""
    ensures ArrayText(items, start, stop)
            == (if out == "" then "null" else out) + (if start != stop then "]" else "")
  {
  }

  lemma ElementsAreNotEmpty(f: Doubles, attrs: seq<Attr>, elems: seq<seq<byte>>)
    requires Printed(attrs, elems)
    ensures forall k :: 0 <= k < |elems| ==> Texts(f, attrs, elems)[k] != ""
  {
    hide MembersText, Members;
  }

  /** The getter answers for the first `|elems|` indices. The index is a `size_t` and the
      default `stop` is its largest value, so only the end of the array ends that loop. */
  method Print(f: Doubles, attrs: seq<Attr>, elems: seq<seq<byte>>, start: nat, stop: nat) returns (out: string, len: nat)
    requires start < WORD && stop < WORD && |elems| < WORD
    requires Printed(attrs, elems)
    ensures out == ArrayText(Texts(f, attrs, elems), start, stop)
    ensures len == |out|
  {
    hide ObjectText, Members, Inside, ArrayText, Texts, Listed;
    ghost var items := Texts(f, attrs, elems);
    ListedFirst(items, start, stop);
    out := if start != stop then "[" else "";
    len := |out|;
    var i := start;
    while i <= stop
      invariant start <= i < WORD && Listed(items, start, stop, i, out) && len == |out|
      decreases WORD - i
    {
      if i >= |elems| {
        break;
      }
      ListedNext(items, start, stop, i, out);
      var comma := if i > start then "," else "";
      var text, n := PrintElement(f, attrs, elems[i]);
      out := out + comma + text;
      len := len + |comma| + n;
      i := (i + 1) % WORD;
    }
    ElementsAreNotEmpty(f, attrs, elems);
    ListedAll(items, start, stop, i, out);
    if len == 0 {
      out, len := out + "null", len + 4;
    }
    if start != stop {
      out, len := out + "]", len + 1;
    }
  }

  /** Two neighbouring pages hold what one page over both holds. */
  lemma PagesCompose(items: seq<string>, start: nat, mid: nat, stop: nat)
    requires start <= mid < stop && mid + 1 < |items|
    ensures Range(items, start, mid) + Range(items, mid + 1, stop) == Range(items, start, stop)
  {
  }

  lemma {:induction false} JoinAppend(s: seq<string>, t: seq<string>)
    requires s != [] && t != []
    ensures Join(s + t) == Join(s) + "," + Join(t)
    decreases |s|
  {
    if |s| == 1 {
      assert (s + t)[1..] == t;
    } else {
      assert (s + t)[1..] == s[1..] + t;
      JoinAppend(s[1..], t);
    }
  }

  lemma RangeHoldsIts(items: seq<string>, start: nat, stop: nat)
    requires start <= stop && start < |items|
    ensures Range(items, start, stop) != []
  {
  }

  /** Reading an array page by page loses and repeats nothing: the bodies of two
      neighbouring pages, joined by a comma, are the body of the page over both. */
  lemma PagesOfTheAnswerCompose(items: seq<string>, start: nat, mid: nat, stop: nat)
    requires start < mid && mid + 1 < stop && mid + 1 < |items|
    ensures var p, q, r := ArrayText(items, start, mid), ArrayText(items, mid + 1, stop), ArrayText(items, start, stop);
            p[..|p| - 1] + "," + q[1..] == r
  {
    hide Join, Range;
    PagesCompose(items, start, mid, stop);
    RangeHoldsIts(items, start, mid);
    RangeHoldsIts(items, mid + 1, stop);
    JoinAppend(Range(items, start, mid), Range(items, mid + 1, stop));
  }

  // -------------------------------------------------------------- what the text says

  /** The elements with an index from `start` to `stop`, as far as the array goes. */
  function Selected(vs: seq<Json>, start: nat, stop: nat): (r: seq<Json>)
    ensures var last := Min(stop + 1, |vs|); |r| == if start < last then last - start else 0
    ensures forall k :: 0 <= k < |r| ==> r[k] == vs[start + k]
  {
    var last := Min(stop + 1, |vs|);
    if start < last then seq(last - start, k requires 0 <= k < last - start => vs[start + k]) else []
  }

  function Unspaced(vs: seq<Json>): seq<Item> {
    seq(|vs|, k requires 0 <= k < |vs| => Item("", vs[k], ""))
  }

  ghost predicate TextsOf(items: seq<string>, vs: seq<Json>) {
    |items| == |vs| && forall k :: 0 <= k < |vs| ==> items[k] == Text(vs[k])
  }

  lemma {:induction false} JoinIsItems(items: seq<string>, vs: seq<Json>)
    requires TextsOf(items, vs) && vs != []
    ensures Join(items) == ItemsText(Unspaced(vs))
    decreases |vs|
  {
    hide Text;
    assert ItemText(Unspaced(vs)[0]) == items[0];
    if |vs| > 1 {
      assert Unspaced(vs)[1..] == Unspaced(vs[1..]);
      JoinIsItems(items[1..], vs[1..]);
      assert items[0] + "," + Join(items[1..]) == items[0] + ("," + Join(items[1..]));
    }
  }

  /** A range is answered with the JSON array of the elements it selects, in order; one
      index with that element alone, or `null` behind the end. */
  lemma TheAnswerIsJson(items: seq<string>, vs: seq<Json>, start: nat, stop: nat)
    requires TextsOf(items, vs)
    ensures ArrayText(items, start, stop)
            == Text(if start != stop then Arr(Unspaced(Selected(vs, start, stop)), "")
                    else if start < |vs| then vs[start] else Leaf(NullTok))
  {
    hide ItemsText, Join;
    if start != stop {
      var part := Selected(vs, start, stop);
      assert TextsOf(Range(items, start, stop), part);
      if part == [] {
        NothingJoined();
      } else {
        JoinIsItems(Range(items, start, stop), part);
      }
    }
  }

  lemma NothingJoined()
    ensures Join([]) == ""
  {
  }
}
