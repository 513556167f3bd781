/** Summary extraction (`summary_make`): the header fields of a message,
    restricted to six interesting keys, with a repeated key keeping the value
    it has last. */
module Summaries {
  import opened Results
  import opened Header

  /** The keys a summary keeps. */
  const Interesting: set<string> := {"from", "subject", "date", "lines", "references", "message-id"}

  /** The key under which a message is filed. */
  const MessageIdKey: string := "message-id"

  type Summary = map<string, string>

  /** Fold the fields, in order, into a summary. */
  function Collect(fields: seq<Field>): (summ: Summary)
    ensures summ.Keys <= Interesting
    decreases |fields|
  {
    if fields == [] then map[]
    else
      var prev := Collect(fields[..|fields| - 1]);
      var field := fields[|fields| - 1];
      if field.0 in Interesting then prev[field.0 := field.1] else prev
  }

  /** A key is in the summary exactly when it is interesting and some field
      has it; keys such as `x-mailer` never appear. */
  lemma {:induction false} CollectKeys(fields: seq<Field>, key: string)
    ensures key in Collect(fields) <==>
      key in Interesting && exists j :: 0 <= j < |fields| && fields[j].0 == key
    decreases |fields|
  {
    if fields != [] {
      var init := fields[..|fields| - 1];
      CollectKeys(init, key);
      if key in Interesting && fields[|fields| - 1].0 != key {
        if exists j :: 0 <= j < |fields| && fields[j].0 == key {
          var j :| 0 <= j < |fields| && fields[j].0 == key;
          assert init[j] == fields[j];
        }
      }
    }
  }

  /** A kept key maps to the value of the last field with that key. */
  lemma {:induction false} CollectKeepsLast(fields: seq<Field>, j: nat)
    requires j < |fields| && fields[j].0 in Interesting
    requires forall k :: j < k < |fields| ==> fields[k].0 != fields[j].0
    ensures fields[j].0 in Collect(fields)
    ensures Collect(fields)[fields[j].0] == fields[j].1
    decreases |fields|
  {
    if j < |fields| - 1 {
      var init := fields[..|fields| - 1];
      assert init[j] == fields[j];
      CollectKeepsLast(init, j);
    }
  }

  /** The summary of a message, or the header error that prevents it. */
  function SummaryOf(message: seq<Line>): Result<Summary, HeaderError> {
    match Normalise(message)
    case Err(e) => Err(e)
    case Ok(fields) => Ok(Collect(fields))
  }

  /** The loop of `summary_make`: keep each interesting field, a later field
      overwriting an earlier one with the same key. */
  method CollectFields(fields: seq<Field>) returns (summ: Summary)
    ensures summ == Collect(fields)
  {
    summ := map[];
    var i := 0;
    while i < |fields|
      invariant i <= |fields|
      invariant summ == Collect(fields[..i])
    {
      var field := fields[i];
      if field.0 in Interesting {
        summ := summ[field.0 := field.1];
      }
      assert fields[..i + 1][..i] == fields[..i];
      i := i + 1;
    }
    assert fields[..i] == fields;
  }

  /** `summary_make`: the summary of the normalised header, or the error
      `header_normalise` raises. */
  method SummaryMake(header: seq<Line>) returns (r: Result<Summary, HeaderError>)
    ensures r == SummaryOf(header)
  {
    var normalised := HeaderNormalise(header);
    if normalised.Err? {
      return Err(normalised.error);
    }
    var summ := CollectFields(normalised.value);
    r := Ok(summ);
  }
}
