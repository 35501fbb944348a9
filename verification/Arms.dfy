/** Emitted `match` blocks: a list of arms, of which the first that matches is taken. */
module Arms {
  import opened Wrappers
  import opened Channel

  function FirstMatch<R>(arms: seq<(Ident, R)>, key: Ident): (r: Option<R>)
    ensures r.Some? <==> exists i :: 0 <= i < |arms| && arms[i].0 == key
  {
    if arms == [] then None
    else if arms[0].0 == key then Some(arms[0].1)
    else FirstMatch(arms[1..], key)
  }

  /** The arm taken is the one no earlier arm shadows. */
  lemma {:induction false} FirstMatchAt<R>(arms: seq<(Ident, R)>, k: nat)
    requires k < |arms|
    requires forall j | 0 <= j < k :: arms[j].0 != arms[k].0
    ensures FirstMatch(arms, arms[k].0) == Some(arms[k].1)
  {
    if k > 0 {
      FirstMatchAt(arms[1..], k - 1);
    }
  }

  /** A match takes some arm, and no arm before it has the same pattern. */
  lemma {:induction false} FirstMatchIndex<R>(arms: seq<(Ident, R)>, key: Ident) returns (k: nat)
    requires FirstMatch(arms, key).Some?
    ensures k < |arms| && arms[k].0 == key && FirstMatch(arms, key) == Some(arms[k].1)
    ensures forall j | 0 <= j < k :: arms[j].0 != key
  {
    if arms[0].0 == key {
      k := 0;
    } else {
      var rest := FirstMatchIndex(arms[1..], key);
      k := rest + 1;
    }
  }

  /** Arms appended to a match are only reached when none of the original arms matches. */
  lemma {:induction false} FirstMatchAppend<R>(arms: seq<(Ident, R)>, added: seq<(Ident, R)>, key: Ident)
    ensures FirstMatch(arms + added, key)
         == if FirstMatch(arms, key).Some? then FirstMatch(arms, key) else FirstMatch(added, key)
  {
    if arms == [] {
      assert arms + added == added;
    } else {
      assert (arms + added)[1..] == arms[1..] + added;
      FirstMatchAppend(arms[1..], added, key);
    }
  }
}
