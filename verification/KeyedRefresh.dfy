/**
 * Keyed refreshes: a list of inputs, each skipped or to be written under a key, is gone through once, and an
 * input whose key is already known is not written again.
 */
module KeyedRefresh {
  import opened Results
  import opened Ordering

  datatype Keyed<+S> = Keyed(item: S, key: string)

  type Inputs<+S> = seq<Option<Keyed<S>>>

  /** The known keys and the items written as a refresh goes through its inputs. */
  datatype Progress<+S> = Progress(keys: set<string>, created: seq<S>)

  function Step<S>(p: Progress<S>, input: Option<Keyed<S>>): Progress<S> {
    if input.None? || input.value.key in p.keys then p
    else Progress(p.keys + {input.value.key}, p.created + [input.value.item])
  }

  function After<S>(keys: set<string>, inputs: Inputs<S>): Progress<S> {
    if inputs == [] then Progress(keys, [])
    else
      var n := |inputs| - 1;
      Step(After(keys, inputs[..n]), inputs[n])
  }

  /** The keys a reader finds on a list of items. */
  ghost function ReadKeys<S(!new)>(read: S -> Option<string>, items: seq<S>): set<string> {
    set s | s in items && read(s).Some? :: read(s).value
  }

  lemma ReadKeysAppend<S(!new)>(read: S -> Option<string>, a: seq<S>, b: seq<S>)
    ensures ReadKeys(read, a + b) == ReadKeys(read, a) + ReadKeys(read, b)
  {
  }

  lemma ReadKeysOfOne<S(!new)>(read: S -> Option<string>, item: S)
    ensures ReadKeys(read, [item]) == if read(item).Some? then {read(item).value} else {}
  {
    assert item in [item];
  }

  ghost predicate KnowsAll<S>(keys: set<string>, inputs: Inputs<S>) {
    forall i :: 0 <= i < |inputs| && inputs[i].Some? ==> inputs[i].value.key in keys
  }

  /** The reader finds on every written item the key it was written under. */
  ghost predicate ReadsBack<S>(read: S -> Option<string>, inputs: Inputs<S>) {
    forall i :: 0 <= i < |inputs| && inputs[i].Some? ==> read(inputs[i].value.item) == Some(inputs[i].value.key)
  }

  lemma {:induction false} AfterKnowsItsKeys<S>(keys: set<string>, inputs: Inputs<S>)
    ensures keys <= After(keys, inputs).keys && KnowsAll(After(keys, inputs).keys, inputs)
  {
    if inputs != [] {
      AfterKnowsItsKeys(keys, inputs[..|inputs| - 1]);
    }
  }

  lemma {:induction false} NothingNew<S>(keys: set<string>, inputs: Inputs<S>)
    requires KnowsAll(keys, inputs)
    ensures After(keys, inputs) == Progress(keys, [])
  {
    if inputs != [] {
      NothingNew(keys, inputs[..|inputs| - 1]);
    }
  }

  lemma {:induction false} CreatedNothingKnowsAll<S>(keys: set<string>, inputs: Inputs<S>)
    requires After(keys, inputs).created == []
    ensures After(keys, inputs).keys == keys && KnowsAll(keys, inputs)
  {
    AfterKnowsItsKeys(keys, inputs);
    if inputs != [] {
      CreatedNothingKnowsAll(keys, inputs[..|inputs| - 1]);
    }
  }

  lemma {:induction false} CreatedComeFrom<S(!new)>(keys: set<string>, inputs: Inputs<S>)
    ensures forall s :: s in After(keys, inputs).created ==>
              exists i :: 0 <= i < |inputs| && inputs[i].Some? && inputs[i].value.item == s
  {
    if inputs != [] {
      CreatedComeFrom(keys, inputs[..|inputs| - 1]);
    }
  }

  /** Where keys read back, the keys found after a refresh are the keys it ended with. */
  lemma {:induction false} ReadKeysAreWritten<S(!new)>(read: S -> Option<string>, keys: set<string>, inputs: Inputs<S>)
    requires ReadsBack(read, inputs)
    ensures keys + ReadKeys(read, After(keys, inputs).created) == After(keys, inputs).keys
  {
    if inputs != [] {
      var n := |inputs| - 1;
      var p := After(keys, inputs[..n]);
      ReadKeysAreWritten(read, keys, inputs[..n]);
      if inputs[n].Some? && inputs[n].value.key !in p.keys {
        ReadKeysAppend(read, p.created, [inputs[n].value.item]);
        assert ReadKeys(read, [inputs[n].value.item]) == {inputs[n].value.key};
      }
    }
  }

  /** Going through the whole list again with the keys known after `m` inputs is going on with the rest. */
  lemma {:induction false} ResumeSkipsDone<S>(keys: set<string>, inputs: Inputs<S>, m: nat)
    requires m <= |inputs|
    ensures var p := After(keys, inputs[..m]);
            p.created + After(p.keys, inputs).created == After(keys, inputs).created
            && After(p.keys, inputs).keys == After(keys, inputs).keys
  {
    var p := After(keys, inputs[..m]);
    if m == |inputs| {
      assert inputs[..m] == inputs;
      AfterKnowsItsKeys(keys, inputs);
      NothingNew(p.keys, inputs);
    } else {
      var n := |inputs| - 1;
      assert inputs[..n][..m] == inputs[..m];
      ResumeSkipsDone(keys, inputs[..n], m);
    }
  }

  /** A refresh ends with the keys it started with and those of its inputs, one more for every item created. */
  lemma {:induction false} AfterCountsKeys<S>(keys: set<string>, inputs: Inputs<S>)
    ensures |After(keys, inputs).keys| == |keys| + |After(keys, inputs).created|
    ensures forall known: set<string> :: keys <= known && KnowsAll(known, inputs) ==> After(keys, inputs).keys <= known
  {
    if inputs != [] {
      var n := |inputs| - 1;
      AfterCountsKeys(keys, inputs[..n]);
      forall known: set<string> | keys <= known && KnowsAll(known, inputs)
        ensures After(keys, inputs).keys <= known
      {
        assert KnowsAll(known, inputs[..n]);
      }
    }
  }

  /** Going on with fewer keys than were known creates more in all. */
  lemma ForgettingCreatesMore<S>(keys: set<string>, inputs: Inputs<S>, m: nat, again: set<string>, forgotten: string)
    requires m <= |inputs| && keys <= again <= After(keys, inputs[..m]).keys
    requires forgotten in After(keys, inputs[..m]).keys && forgotten !in again
    ensures |After(keys, inputs[..m]).created| + |After(again, inputs).created| > |After(keys, inputs).created|
  {
    var known := After(keys, inputs[..m]).keys;
    AfterCountsKeys(keys, inputs[..m]);
    AfterCountsKeys(keys, inputs);
    AfterCountsKeys(again, inputs);
    AfterKnowsItsKeys(again, inputs);
    SubsetSize(again, known - {forgotten});
    SubsetSize(After(keys, inputs).keys, After(again, inputs).keys);
  }

  /** Of two inputs, one new and one known, only the new one is written. */
  lemma OnlyNewIsWritten<S>(keys: set<string>, x: Keyed<S>, y: Keyed<S>)
    requires x.key !in keys && y.key in keys
    ensures After(keys, [Some(x), Some(y)]).created == [x.item]
  {
    var inputs := [Some(x), Some(y)];
    assert inputs[..1] == [Some(x)] && inputs[..1][..0] == [];
    assert After(keys, inputs[..1]) == Progress(keys + {x.key}, [x.item]);
  }
}
