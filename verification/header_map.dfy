/** The `headers` map `onResponse` builds before extracting response
    headers: a `HashMap` filled by one `put(name, value)` per response
    header, in response order. */
module HeaderMaps {
  import opened Runtime

  /** No header after position `i` has the same name as header `i`. */
  predicate LastWithName(hs: seq<Header>, i: int)
    requires 0 <= i < |hs|
  {
    forall j :: i < j < |hs| ==> hs[j].name != hs[i].name
  }

  /** The names of the headers of `hs`. */
  function HeaderNames(hs: seq<Header>): set<string> {
    set h | h in hs :: h.name
  }

  /** The map after putting every header of `hs`, first to last. */
  function HeaderMapOf(hs: seq<Header>): map<string, string>
    decreases |hs|
  {
    if hs == [] then map[]
    else HeaderMapOf(hs[..|hs| - 1])[hs[|hs| - 1].name := hs[|hs| - 1].value]
  }

  /** The map holds exactly the names of the response's headers. */
  lemma {:induction false} HeaderMapKeys(hs: seq<Header>)
    ensures HeaderMapOf(hs).Keys == HeaderNames(hs)
    decreases |hs|
  {
    if hs != [] {
      var init := hs[..|hs| - 1];
      var h := hs[|hs| - 1];
      HeaderMapKeys(init);
      assert hs == init + [h];
      assert HeaderNames(hs) == HeaderNames(init) + {h.name};
    }
  }

  /** On duplicate names the last header wins: `put` overwrites. */
  lemma {:induction false} HeaderMapLastWins(hs: seq<Header>, i: nat)
    requires i < |hs| && LastWithName(hs, i)
    ensures hs[i].name in HeaderMapOf(hs) && HeaderMapOf(hs)[hs[i].name] == hs[i].value
    decreases |hs|
  {
    var init := hs[..|hs| - 1];
    if i < |hs| - 1 {
      assert init[i] == hs[i];
      assert LastWithName(init, i) by {
        forall j | i < j < |init|
          ensures init[j].name != init[i].name
        {
          assert init[j] == hs[j];
        }
      }
      HeaderMapLastWins(init, i);
    }
  }
}
