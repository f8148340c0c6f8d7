/** The string-table resolver. Names in a trace are interned: a row of the StringIds table maps an
    integer id to its text, and records hold ids. */
module StringTable {
  import opened Wrappers
  import opened Errors

  /** A row of the StringIds table. */
  datatype StringRow = StringRow(id: int, value: string)

  /** `fragment` occurs in `text` as a contiguous substring (the `LIKE '%fragment%'` test). */
  predicate Contains(text: string, fragment: string)
  {
    exists k :: 0 <= k <= |text| - |fragment| && OccursAt(text, fragment, k)
  }

  /** `fragment` occurs in `text` starting at position `k`. */
  predicate OccursAt(text: string, fragment: string, k: int)
  {
    0 <= k && k + |fragment| <= |text| && text[k..k + |fragment|] == fragment
  }

  /** `text` contains at least one of `fragments`: the fragment tests joined with OR. */
  predicate MatchesAny(text: string, fragments: seq<string>)
  {
    exists i :: 0 <= i < |fragments| && Contains(text, fragments[i])
  }

  /** Every id occurs in at most one row, as in a well-formed StringIds table. */
  ghost predicate UniqueIds(rows: seq<StringRow>)
  {
    forall i, j :: 0 <= i < j < |rows| ==> rows[i].id != rows[j].id
  }

  /** Some row of the table has id `id`. */
  ghost predicate HasId(rows: seq<StringRow>, id: int)
  {
    exists i :: 0 <= i < |rows| && rows[i].id == id
  }

  /** Some row with id `id` has a text that contains one of `fragments`. */
  ghost predicate IdMatches(rows: seq<StringRow>, id: int, fragments: seq<string>)
  {
    exists i :: 0 <= i < |rows| && rows[i].id == id && MatchesAny(rows[i].value, fragments)
  }

  /** Row `i` matches one of `fragments` and no later row with its id does. */
  ghost predicate IsLastMatch(rows: seq<StringRow>, fragments: seq<string>, i: int)
  {
    0 <= i < |rows| && MatchesAny(rows[i].value, fragments)
    && forall j :: i < j < |rows| && rows[j].id == rows[i].id ==> !MatchesAny(rows[j].value, fragments)
  }

  /** `findStringIdsContaining`: the map from id to text of every row whose text contains at least
      one fragment. The rows are fetched in table order and put into a dictionary one after the
      other, so when an id repeats the last matching row wins. */
  function FindStringIdsContaining(rows: seq<StringRow>, fragments: seq<string>): (m: map<int, string>)
    ensures forall id :: id in m <==> IdMatches(rows, id, fragments)
    ensures forall id :: id in m ==>
      exists i :: IsLastMatch(rows, fragments, i) && rows[i].id == id && rows[i].value == m[id]
    decreases |rows|
  {
    if rows == [] then map[]
    else
      var init := rows[..|rows| - 1];
      var last := rows[|rows| - 1];
      var m := FindStringIdsContaining(init, fragments);
      assert forall i :: 0 <= i < |init| ==> init[i] == rows[i];
      if MatchesAny(last.value, fragments) then
        assert IsLastMatch(rows, fragments, |rows| - 1);
        assert forall i :: IsLastMatch(init, fragments, i) && init[i].id != last.id ==>
          IsLastMatch(rows, fragments, i);
        m[last.id := last.value]
      else
        assert forall i :: IsLastMatch(init, fragments, i) ==> IsLastMatch(rows, fragments, i);
        m
  }

  /** In a table with unique ids each found id maps to the text of its own row. */
  lemma FoundIdHasItsText(rows: seq<StringRow>, fragments: seq<string>, i: int)
    requires UniqueIds(rows)
    requires 0 <= i < |rows| && MatchesAny(rows[i].value, fragments)
    ensures rows[i].id in FindStringIdsContaining(rows, fragments)
    ensures FindStringIdsContaining(rows, fragments)[rows[i].id] == rows[i].value
  {
  }

  /** `findStringMatchingId`: the text of the first row with id `id`, as `fetchone` returns it.
      With no such row `fetchone` yields nothing and reading its `value` fails. */
  function FindStringMatchingId(rows: seq<StringRow>, id: int): (r: Result<string, Error>)
    ensures r.Success? <==> HasId(rows, id)
    ensures r.Failure? ==> r.error == NoRow
    ensures r.Success? ==>
      exists i :: 0 <= i < |rows| && rows[i].id == id && rows[i].value == r.value
        && forall j :: 0 <= j < i ==> rows[j].id != id
    ensures UniqueIds(rows) ==>
      forall i :: 0 <= i < |rows| && rows[i].id == id ==> r == Success(rows[i].value)
  {
    if rows == [] then Failure(NoRow)
    else if rows[0].id == id then Success(rows[0].value)
    else
      var tail := FindStringMatchingId(rows[1..], id);
      assert forall i :: 1 <= i < |rows| ==> rows[i] == rows[1..][i - 1];
      tail
  }

  /** The two resolvers agree: in a table with unique ids, looking up an id that the fragment search
      found gives the text the search mapped it to. */
  lemma ResolversAgree(rows: seq<StringRow>, fragments: seq<string>)
    requires UniqueIds(rows)
    ensures forall id :: id in FindStringIdsContaining(rows, fragments) ==>
      FindStringMatchingId(rows, id) == Success(FindStringIdsContaining(rows, fragments)[id])
  {
  }
}
