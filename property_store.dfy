// The stack's device and platform property store as the bridge sees it
// through OCSetPropertyValue: a map from property name to C string, and a
// write that the stack may refuse with an OCStackResult other than OK.
module PropertyStore {
  import opened Text
  import Resources

  datatype Write = Write(name: string, value: string)

  /**
   * A fail-fast sequence of writes: each one that is accepted updates the
   * store; the first refusal ends the sequence and is the result; when every
   * write is accepted the result is OK.
   */
  function Run(values: map<string, string>, outcome: (string, string) -> int, ws: seq<Write>): (r: (map<string, string>, int))
    decreases |ws|
  {
    if |ws| == 0 then (values, Resources.StackOk)
    else
      var v := CPrefix(ws[0].value);
      var res := outcome(ws[0].name, v);
      if res != Resources.StackOk then (values, res)
      else Run(values[ws[0].name := v], outcome, ws[1..])
  }

  /** The store after all of `ws` are accepted. */
  function Stored(values: map<string, string>, ws: seq<Write>): map<string, string>
    decreases |ws|
  {
    if |ws| == 0 then values else Stored(values[ws[0].name := CPrefix(ws[0].value)], ws[1..])
  }

  function Accepted(outcome: (string, string) -> int, w: Write): bool {
    outcome(w.name, CPrefix(w.value)) == Resources.StackOk
  }

  /** When every write is accepted the result is OK and the store holds them all, later ones over earlier ones. */
  lemma {:induction false} RunAllAccepted(values: map<string, string>, outcome: (string, string) -> int, ws: seq<Write>)
    requires forall i :: 0 <= i < |ws| ==> Accepted(outcome, ws[i])
    ensures Run(values, outcome, ws) == (Stored(values, ws), Resources.StackOk)
    decreases |ws|
  {
    if |ws| > 0 {
      RunAllAccepted(values[ws[0].name := CPrefix(ws[0].value)], outcome, ws[1..]);
    }
  }

  /** The first refused write is the result, and only the writes before it are in the store. */
  lemma {:induction false} RunStopsAtRefusal(values: map<string, string>, outcome: (string, string) -> int, ws: seq<Write>, k: nat)
    requires k < |ws| && !Accepted(outcome, ws[k])
    requires forall i :: 0 <= i < k ==> Accepted(outcome, ws[i])
    ensures Run(values, outcome, ws) == (Stored(values, ws[..k]), outcome(ws[k].name, CPrefix(ws[k].value)))
    decreases k
  {
    if k > 0 {
      assert ws[1..][..k - 1] == ws[..k][1..];
      RunStopsAtRefusal(values[ws[0].name := CPrefix(ws[0].value)], outcome, ws[1..], k - 1);
    }
  }

  /** A property no write names keeps its value. */
  lemma {:induction false} StoredKeeps(values: map<string, string>, ws: seq<Write>, name: string)
    requires forall i :: 0 <= i < |ws| ==> ws[i].name != name
    ensures name in Stored(values, ws) <==> name in values
    ensures name in values ==> Stored(values, ws)[name] == values[name]
    decreases |ws|
  {
    if |ws| > 0 {
      StoredKeeps(values[ws[0].name := CPrefix(ws[0].value)], ws[1..], name);
    }
  }

  /** One write of a fail-fast sequence: a refusal ends it with that result, an acceptance leaves the rest to run. */
  lemma WriteStep(before: map<string, string>, outcome: (string, string) -> int, w: Write, rest: seq<Write>,
                  result: int, after: map<string, string>)
    requires result == outcome(w.name, CPrefix(w.value))
    requires after == if result == Resources.StackOk then before[w.name := CPrefix(w.value)] else before
    ensures result != Resources.StackOk ==> Run(before, outcome, [w] + rest) == (after, result)
    ensures result == Resources.StackOk ==> Run(before, outcome, [w] + rest) == Run(after, outcome, rest)
  {
    assert ([w] + rest)[0] == w;
    assert ([w] + rest)[1..] == rest;
  }

  /** `[w] + ws` when `cond` holds, else `ws`: a write guarded by a test. */
  function Guarded(cond: bool, w: Write, ws: seq<Write>): seq<Write> {
    if cond then [w] + ws else ws
  }

  /** The stack's property store for one payload type. */
  class Store {
    var values: map<string, string>
    /** What the stack answers to writing a name and (C string) value. */
    const outcome: (string, string) -> int

    constructor(outcome: (string, string) -> int)
      ensures values == map[] && this.outcome == outcome
    {
      values := map[];
      this.outcome := outcome;
    }

    /** OCSetPropertyValue: an accepted write stores the C string, a refused one leaves the store alone. */
    method SetPropertyValue(name: string, value: string) returns (result: int)
      modifies this
      ensures result == outcome(name, CPrefix(value))
      ensures values == if result == Resources.StackOk then old(values)[name := CPrefix(value)] else old(values)
    {
      result := outcome(name, CPrefix(value));
      if result == Resources.StackOk {
        values := values[name := CPrefix(value)];
      }
    }
  }
}
