/**
 * `get_inputs_names_and_ids`: the `name` and `id` attributes of the page's
 * `<input>` elements, with absent and empty values discarded.
 */
module FormFields {
  import opened Wrappers

  /** One `<input>` element as the HTML parser reports it: each attribute is
      `None` when the element does not carry it. */
  datatype InputElement = InputElement(name: Option<string>, id: Option<string>)

  /** What one attribute value adds to the set once `filter(None, ...)` has
      dropped `None` and the empty string. */
  function Present(attr: Option<string>): set<string>
  {
    if attr.Some? && attr.value != "" then {attr.value} else {}
  }

  /** The set of all non-empty names and ids over the elements. */
  function InputNamesAndIds(inputs: seq<InputElement>): (names: set<string>)
    ensures "" !in names
    ensures inputs == [] ==> names == {}
  {
    if inputs == [] then {}
    else Present(inputs[0].name) + Present(inputs[0].id) + InputNamesAndIds(inputs[1..])
  }

  /** A string is in the result exactly when it is non-empty and is the name or
      the id of some element; repeated values are one set member. */
  lemma {:induction false} InputNamesAndIdsMembers(inputs: seq<InputElement>, x: string)
    ensures x in InputNamesAndIds(inputs) <==>
      x != "" && exists k | 0 <= k < |inputs| :: inputs[k].name == Some(x) || inputs[k].id == Some(x)
  {
    if inputs != [] {
      InputNamesAndIdsMembers(inputs[1..], x);
      if x != "" && (exists k | 0 <= k < |inputs| :: inputs[k].name == Some(x) || inputs[k].id == Some(x)) {
        var k :| 0 <= k < |inputs| && (inputs[k].name == Some(x) || inputs[k].id == Some(x));
        if k > 0 {
          assert inputs[1..][k - 1] == inputs[k];
        }
      }
      if x in InputNamesAndIds(inputs[1..]) {
        var k :| 0 <= k < |inputs[1..]| && (inputs[1..][k].name == Some(x) || inputs[1..][k].id == Some(x));
        assert inputs[k + 1] == inputs[1..][k];
      }
    }
  }

  /** The result depends only on which elements occur, so the elements of two
      lists together contribute the union of their sets. */
  lemma {:induction false} InputNamesAndIdsAppend(a: seq<InputElement>, b: seq<InputElement>)
    ensures InputNamesAndIds(a + b) == InputNamesAndIds(a) + InputNamesAndIds(b)
  {
    if a == [] {
      assert a + b == b;
    } else {
      assert (a + b)[1..] == a[1..] + b;
      InputNamesAndIdsAppend(a[1..], b);
    }
  }

  /** An element without attributes, or with empty ones, contributes nothing. */
  lemma BlankElementAddsNothing(inputs: seq<InputElement>, e: InputElement)
    requires e.name in {None, Some("")} && e.id in {None, Some("")}
    ensures InputNamesAndIds(inputs + [e]) == InputNamesAndIds(inputs)
  {
    InputNamesAndIdsAppend(inputs, [e]);
    assert [e][1..] == [];
  }
}
