/** The older equity split editor (src/components/Dashboard/EquitySplit.js): a list of
    founders with their percentages, saved only when those add up to exactly 100%.
    Percentages are integers counting hundredths of a percent, so 100% is 10000. */
module EquitySplit {
  import opened JsValues

  /** One founder row; `equity` is `None` when it is missing or falsy. */
  datatype FounderEntry = FounderEntry(name: string, equity: Option<int>)

  /** `parseFloat(founder.equity || 0)`. */
  function EquityOr0(f: FounderEntry): int {
    if f.equity.Some? then f.equity.value else 0
  }

  /** `founders.reduce((total, founder) => total + parseFloat(founder.equity || 0), 0)`. */
  function TotalEquity(fs: seq<FounderEntry>): (r: int)
    ensures (forall i :: 0 <= i < |fs| ==> fs[i].equity.None?) ==> r == 0
    ensures (forall i :: 0 <= i < |fs| ==> EquityOr0(fs[i]) >= 0) ==> r >= 0
  {
    if fs == [] then 0 else TotalEquity(fs[..|fs| - 1]) + EquityOr0(fs[|fs| - 1])
  }

  lemma {:induction false} TotalEquityAppend(a: seq<FounderEntry>, b: seq<FounderEntry>)
    ensures TotalEquity(a + b) == TotalEquity(a) + TotalEquity(b)
  {
    if b != [] {
      assert (a + b)[..|a + b| - 1] == a + b[..|b| - 1];
      TotalEquityAppend(a, b[..|b| - 1]);
    } else {
      assert a + b == a;
    }
  }

  /** A founder without an equity, inserted anywhere, does not change the total. */
  lemma MissingEquityCountsZero(fs: seq<FounderEntry>, i: nat, name: string)
    requires i <= |fs|
    ensures TotalEquity(fs[..i] + [FounderEntry(name, None)] + fs[i..]) == TotalEquity(fs)
  {
    assert TotalEquity([FounderEntry(name, None)]) == 0 by {
      assert [FounderEntry(name, None)][..0] == [];
    }
    TotalEquityAppend(fs[..i] + [FounderEntry(name, None)], fs[i..]);
    TotalEquityAppend(fs[..i], [FounderEntry(name, None)]);
    TotalEquityAppend(fs[..i], fs[i..]);
    assert fs[..i] + fs[i..] == fs;
  }

  /** The alert shown, if any. The mismatch message embeds the total with two decimals. */
  datatype SplitError = NoError | Message(text: string) | TotalNotHundred(total: int)

  const SaveFailedMessage := "Failed to save equity split"
  const SavedMessage := "Equity split saved successfully!"

  datatype SplitState = SplitState(founders: seq<FounderEntry>, equalSplit: bool, error: SplitError, success: string)

  /** One blank founder at 0%. */
  const InitialSplitState := SplitState([FounderEntry("", Some(0))], false, NoError, "")

  /** `fetchEquitySplit`, with the response body's `founders` field as `fetched` (`None`
      when the GET fails or the field is absent; the failure is only logged). */
  function FetchEquitySplit(s: SplitState, fetched: Option<seq<FounderEntry>>): (r: SplitState)
    ensures fetched.Some? ==> r.founders == fetched.value
    ensures r.equalSplit == s.equalSplit && r.error == s.error && r.success == s.success
    ensures fetched.None? ==> r == s
  {
    if fetched.Some? then s.(founders := fetched.value) else s
  }

  /** The new state and the founders posted, if any. */
  datatype SaveOutcome = SaveOutcome(state: SplitState, request: Option<seq<FounderEntry>>)

  /** `handleSave`, with the outcome of the POST as `posted`. A failed POST sets the error
      and leaves the success message as it was. */
  function HandleSave(s: SplitState, posted: bool): (out: SaveOutcome)
    ensures out.state.founders == s.founders && out.state.equalSplit == s.equalSplit
    ensures out.request.Some? <==> TotalEquity(s.founders) == 10000
    ensures out.request.None? ==>
              out.state.error == TotalNotHundred(TotalEquity(s.founders)) && out.state.success == ""
    ensures out.request.Some? ==> out.request.value == s.founders
    ensures out.request.Some? && posted ==> out.state.error == NoError && out.state.success == SavedMessage
    ensures out.request.Some? && !posted ==>
              out.state.error == Message(SaveFailedMessage) && out.state.success == s.success
  {
    var total := TotalEquity(s.founders);
    if total != 10000 then
      SaveOutcome(s.(error := TotalNotHundred(total), success := ""), None)
    else if posted then
      SaveOutcome(s.(success := SavedMessage, error := NoError), Some(s.founders))
    else
      SaveOutcome(s.(error := Message(SaveFailedMessage)), Some(s.founders))
  }

  /** The blank initial founder adds up to 0%, so saving it is refused. */
  lemma InitialSaveRejected(posted: bool)
    ensures HandleSave(InitialSplitState, posted).request == None
    ensures HandleSave(InitialSplitState, posted).state.error == TotalNotHundred(0)
  {
    assert [FounderEntry("", Some(0))][..0] == [];
  }

  /** Saving again right after a save, with the same outcome of the POST, gives the same
      outcome: a rejection repeats its message and a save repeats its request. */
  lemma SaveIsStable(s: SplitState, posted: bool)
    ensures HandleSave(HandleSave(s, posted).state, posted) == HandleSave(s, posted)
  {
  }
}
