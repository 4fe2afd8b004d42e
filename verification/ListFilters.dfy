/** Reading a table by a list of values: which rows such a query returns, given that a list which prints as the
    empty text is dropped from the condition. */
module ListFilters {
  import opened SqlQueries

  /** The list prints as nothing, so that the query has no condition. */
  predicate Unfiltered(list: seq<string>) {
    !Kept(Many(Strings(list)))
  }

  /** `db.get(table, fields, { key: list })` returns a row with this value. */
  predicate Queried(value: string, list: seq<string>) {
    Unfiltered(list) || value in list
  }

  function Strings(list: seq<string>): seq<Scalar> {
    seq(|list|, i requires 0 <= i < |list| => Str(list[i]))
  }

  lemma {:induction false} ListTextCovers(list: seq<string>, i: nat)
    requires i < |list|
    ensures |ListText(Strings(list))| >= |list[i]|
  {
    assert Text(Strings(list)[0]) == list[0];
    if |list| > 1 && i > 0 {
      assert Strings(list)[1..] == Strings(list[1..]);
      ListTextCovers(list[1..], i - 1);
    }
  }

  lemma UnfilteredWhen(list: seq<string>)
    ensures Unfiltered(list) <==> list == [] || list == [""]
  {
    var vs := Strings(list);
    if |list| > 0 {
      assert Text(vs[0]) == list[0];
      assert list == [""] <==> |list| == 1 && list[0] == "";
    }
  }

  /** A text is filtered by like the list of this text. */
  lemma OneLikeMany(text: string)
    ensures Kept(One(Str(text))) <==> !Unfiltered([text])
  {
    UnfilteredWhen([text]);
    assert [text] == [""] <==> text == "";
  }

  /** A row is selected when its value is asked for, and always by a list that prints as nothing. */
  lemma QueriedWhen(value: string, list: seq<string>)
    ensures Queried(value, list) <==> value in list || list == [] || list == [""]
  {
    UnfilteredWhen(list);
  }

  /** The lists that select every row are exactly the empty one and the one of the empty text. */
  lemma EmptyListsFilterNothing(list: seq<string>)
    ensures (forall value :: Queried(value, list)) <==> list == [] || list == [""]
  {
    UnfilteredWhen(list);
    if !Unfiltered(list) {
      var value := ListText(Strings(list)) + "x";
      forall i | 0 <= i < |list| ensures list[i] != value {
        ListTextCovers(list, i);
      }
      assert !Queried(value, list);
    }
  }
}
