/** The equity split form (src/components/Dashboard/EquitySplitForm.js): an object from
    founder id to that founder's percentage, filled from the server's stored split (or with
    0 for every user when there is none), overwritten by an equal automatic split, edited
    one founder at a time, and saved only when the values add up to exactly 100%.
    Percentages are integers counting hundredths of a percent, so 100% is 10000. */
module EquitySplitForm {
  import opened JsValues
  import opened Dicts

  /** The number `parseFloat` yields for an equity input: a count of hundredths, or NaN
      (an empty or non-numeric input, or the `undefined` read for a missing key). */
  datatype Percent = Hundredths(value: int) | NaN

  const OneHundredPercent := 10000

  /** `a + b` on numbers: NaN absorbs everything. */
  function Plus(a: Percent, b: Percent): Percent {
    if a.Hundredths? && b.Hundredths? then Hundredths(a.value + b.value) else NaN
  }

  /** `values.reduce((acc, val) => acc + parseFloat(val), 0)`, left to right. */
  function Total(vs: seq<Percent>): (r: Percent)
    ensures r != NaN <==> forall i :: 0 <= i < |vs| ==> vs[i] != NaN
  {
    if vs == [] then Hundredths(0)
    else
      var p := vs[..|vs| - 1];
      assert forall i :: 0 <= i < |p| ==> p[i] == vs[i];
      Plus(Total(p), vs[|vs| - 1])
  }

  /** Adding up `n` copies of one number gives `n` times it. */
  lemma {:induction false} TotalOfEqualValues(vs: seq<Percent>, x: int)
    requires forall i :: 0 <= i < |vs| ==> vs[i] == Hundredths(x)
    ensures Total(vs) == Hundredths(|vs| * x)
  {
    if vs != [] {
      var p := vs[..|vs| - 1];
      TotalOfEqualValues(p, x);
      assert Total(vs) == Plus(Hundredths(|p| * x), Hundredths(x));
    }
  }

  /** A founder as the form lists it. `equity` is what the stored split holds for them,
      `None` when it is missing or null. */
  datatype Founder = Founder(id: string, name: string, equity: Option<int>)

  /** `founder.equity || 0`. */
  function EquityOr0(f: Founder): int {
    if f.equity.Some? then f.equity.value else 0
  }

  function Ids(fs: seq<Founder>): (r: seq<string>)
    ensures |r| == |fs|
    ensures forall i :: 0 <= i < |fs| ==> r[i] == fs[i].id
  {
    seq(|fs|, i requires 0 <= i < |fs| => fs[i].id)
  }

  /** The equity of the last founder listed with id `k` (a later entry overwrites an
      earlier one in the `reduce`). */
  function LastEquity(fs: seq<Founder>, k: string): int {
    if fs == [] then 0
    else if fs[|fs| - 1].id == k then EquityOr0(fs[|fs| - 1])
    else LastEquity(fs[..|fs| - 1], k)
  }

  /** The object the `reduce` over the fetched founders builds: one key per distinct
      founder id in order of first appearance, holding that founder's equity or 0. */
  function InitialMap(fs: seq<Founder>): (d: Dict<string, Percent>)
    ensures d.Valid()
    ensures d.keys == Dedup(Ids(fs))
  {
    Dict(Dedup(Ids(fs)), map k | k in Ids(fs) :: Hundredths(LastEquity(fs, k)))
  }

  /** The object the auto-split `reduce` builds: one key per distinct founder id, all
      holding `v`. */
  function UniformMap(fs: seq<Founder>, v: Percent): (d: Dict<string, Percent>)
    ensures d.Valid()
    ensures d.keys == Dedup(Ids(fs))
  {
    Dict(Dedup(Ids(fs)), map k | k in Ids(fs) :: v)
  }

  lemma IdsSnoc(fs: seq<Founder>, i: nat)
    requires i < |fs|
    ensures Ids(fs[..i + 1]) == Ids(fs[..i]) + [fs[i].id]
  {
  }

  lemma LastEquitySnoc(fs: seq<Founder>, i: nat, k: string)
    requires i < |fs|
    ensures LastEquity(fs[..i + 1], k) == if fs[i].id == k then EquityOr0(fs[i]) else LastEquity(fs[..i], k)
  {
    assert fs[..i + 1][..i] == fs[..i];
  }

  /** One entry of the initial map after founder `i`. */
  lemma InitialStepEntry(fs: seq<Founder>, i: nat, k: string)
    requires i < |fs| && k in Ids(fs[..i + 1])
    ensures InitialMap(fs[..i]).entries[fs[i].id := Hundredths(EquityOr0(fs[i]))][k] == InitialMap(fs[..i + 1]).entries[k]
  {
    IdsSnoc(fs, i);
    LastEquitySnoc(fs, i, k);
  }

  /** The entries of the initial map after founder `i`. */
  lemma InitialStepEntries(fs: seq<Founder>, i: nat)
    requires i < |fs|
    ensures InitialMap(fs[..i]).entries[fs[i].id := Hundredths(EquityOr0(fs[i]))] == InitialMap(fs[..i + 1]).entries
  {
    var next := InitialMap(fs[..i]).entries[fs[i].id := Hundredths(EquityOr0(fs[i]))];
    var after := InitialMap(fs[..i + 1]).entries;
    IdsSnoc(fs, i);
    assert next.Keys == after.Keys;
    forall k | k in after ensures next[k] == after[k] {
      InitialStepEntry(fs, i, k);
    }
  }

  /** One pass of the initial-map loop body, at founder `i`, extends the map by that founder. */
  lemma InitialStep(fs: seq<Founder>, i: nat)
    requires i < |fs|
    ensures InitialMap(fs[..i]).Put(fs[i].id, Hundredths(EquityOr0(fs[i]))) == InitialMap(fs[..i + 1])
  {
    IdsSnoc(fs, i);
    DedupSnoc(Ids(fs[..i]), fs[i].id);
    InitialStepEntries(fs, i);
  }

  /** One pass of the auto-split loop body, at founder `i`. */
  lemma UniformStep(fs: seq<Founder>, i: nat, v: Percent)
    requires i < |fs|
    ensures UniformMap(fs[..i], v).Put(fs[i].id, v) == UniformMap(fs[..i + 1], v)
  {
    IdsSnoc(fs, i);
    DedupSnoc(Ids(fs[..i]), fs[i].id);
    UniformStepEntries(fs, i, v);
  }

  /** The entries of the auto-split map after founder `i`. */
  lemma UniformStepEntries(fs: seq<Founder>, i: nat, v: Percent)
    requires i < |fs|
    ensures UniformMap(fs[..i], v).entries[fs[i].id := v] == UniformMap(fs[..i + 1], v).entries
  {
    var next := UniformMap(fs[..i], v).entries[fs[i].id := v];
    var after := UniformMap(fs[..i + 1], v).entries;
    IdsSnoc(fs, i);
    assert next.Keys == after.Keys;
  }

  /** `fetchedFounders.reduce((acc, founder) => { acc[founder.id] = founder.equity || 0; ... }, {})`. */
  method InitialEquity(fs: seq<Founder>) returns (values: Dict<string, Percent>)
    ensures values == InitialMap(fs)
  {
    values := EmptyDict();
    assert fs[..0] == [];
    var i := 0;
    while i < |fs|
      invariant 0 <= i <= |fs|
      invariant values == InitialMap(fs[..i])
    {
      InitialStep(fs, i);
      values := values.Put(fs[i].id, Hundredths(EquityOr0(fs[i])));
      i := i + 1;
    }
    assert fs[..i] == fs;
  }

  /** When the founder ids are distinct, the initial map holds exactly one key per founder,
      in founder order, and each founder's stored equity (or 0) under its id. */
  lemma InitialMapPerFounder(fs: seq<Founder>, j: nat)
    requires Distinct(Ids(fs)) && j < |fs|
    ensures InitialMap(fs).keys == Ids(fs)
    ensures InitialMap(fs).entries[fs[j].id] == Hundredths(EquityOr0(fs[j]))
  {
    DedupOfDistinct(Ids(fs));
    LastEquityDistinct(fs, j);
  }

  lemma {:induction false} LastEquityDistinct(fs: seq<Founder>, j: nat)
    requires Distinct(Ids(fs)) && j < |fs|
    ensures LastEquity(fs, fs[j].id) == EquityOr0(fs[j])
  {
    if j < |fs| - 1 {
      var p := fs[..|fs| - 1];
      assert Ids(fs)[j] != Ids(fs)[|fs| - 1];
      assert Ids(p) == Ids(fs)[..|fs| - 1];
      LastEquityDistinct(p, j);
    }
  }

  /** The stored split, one entry per founder (`{ userId: { _id, name }, equity }`). */
  datatype StoredShare = StoredShare(userId: string, name: string, equity: Option<int>)

  /** A user offered when no split is stored. */
  datatype User = User(id: string, name: string)

  /** The body of `GET /api/equity-split`: whichever of the two fields is present. */
  datatype EquityResponse = EquityResponse(equitySplit: Option<seq<StoredShare>>, users: Option<seq<User>>)

  function FromShares(shares: seq<StoredShare>): (fs: seq<Founder>)
    ensures |fs| == |shares|
    ensures forall i :: 0 <= i < |shares| ==>
              fs[i] == Founder(shares[i].userId, shares[i].name, shares[i].equity)
  {
    seq(|shares|, i requires 0 <= i < |shares| => Founder(shares[i].userId, shares[i].name, shares[i].equity))
  }

  function FromUsers(users: seq<User>): (fs: seq<Founder>)
    ensures |fs| == |users|
    ensures forall i :: 0 <= i < |users| ==> fs[i] == Founder(users[i].id, users[i].name, Some(0))
  {
    seq(|users|, i requires 0 <= i < |users| => Founder(users[i].id, users[i].name, Some(0)))
  }

  /** Without a stored split every user starts at 0. */
  lemma UsersStartAtZero(users: seq<User>, k: string)
    requires k in InitialMap(FromUsers(users)).entries
    ensures InitialMap(FromUsers(users)).entries[k] == Hundredths(0)
  {
    LastEquityZero(FromUsers(users), k);
  }

  lemma {:induction false} LastEquityZero(fs: seq<Founder>, k: string)
    requires forall i :: 0 <= i < |fs| ==> fs[i].equity == Some(0)
    ensures LastEquity(fs, k) == 0
  {
    if fs != [] {
      LastEquityZero(fs[..|fs| - 1], k);
    }
  }

  /** The alert the form shows, if any. The total mismatch message embeds the total
      formatted with two decimals. */
  datatype FormError = NoError | Message(text: string) | TotalNotHundred(total: Percent)

  const FetchFailedMessage := "Failed to fetch founders and equity values."
  const SaveFailedMessage := "Failed to save equity split."
  const SavedMessage := "Equity split saved successfully!"

  datatype FormState = FormState(
    founders: seq<Founder>,
    values: Dict<string, Percent>,
    autoSplit: bool,
    error: FormError,
    success: string)

  const InitialFormState := FormState([], EmptyDict(), false, NoError, "")

  /** `fetchFoundersAndEquity`, with the response body as `response` (`None` when the GET
      fails). A stored split wins over the user list; a body with neither changes nothing. */
  method FetchFoundersAndEquity(s: FormState, response: Option<EquityResponse>) returns (r: FormState)
    ensures response.None? ==> r == s.(error := Message(FetchFailedMessage))
    ensures response.Some? && response.value.equitySplit.Some? ==>
              var fs := FromShares(response.value.equitySplit.value);
              r == s.(founders := fs, values := InitialMap(fs))
    ensures response.Some? && response.value.equitySplit.None? && response.value.users.Some? ==>
              var fs := FromUsers(response.value.users.value);
              r == s.(founders := fs, values := InitialMap(fs))
    ensures response.Some? && response.value.equitySplit.None? && response.value.users.None? ==> r == s
  {
    if response.None? {
      return s.(error := Message(FetchFailedMessage));
    }
    var body := response.value;
    if body.equitySplit.Some? {
      var fs := FromShares(body.equitySplit.value);
      var values := InitialEquity(fs);
      r := s.(founders := fs, values := values);
    } else if body.users.Some? {
      var fs := FromUsers(body.users.value);
      var values := InitialEquity(fs);
      r := s.(founders := fs, values := values);
    } else {
      r := s;
    }
  }

  /** `parseFloat((100 / n).toFixed(2))` in hundredths: 10000 / n rounded to the nearest
      integer, halves rounding up. With no founders the value is never stored. */
  function AutoShare(n: nat): (r: int)
    ensures n > 0 ==> 2 * r * n <= 20000 + n < 2 * (r + 1) * n
  {
    if n == 0 then 0 else (20000 + n) / (2 * n)
  }

  lemma AutoShareBound(n: nat)
    requires n > 0
    ensures -(n as int) < 2 * (n * AutoShare(n) - OneHundredPercent) <= n
  {
    var r := AutoShare(n);
    assert 2 * r * n == 2 * (n * r);
  }

  /** `founders.reduce((acc, founder) => { acc[founder.id] = parseFloat(splitValue); ... }, {})`. */
  method AutoSplit(fs: seq<Founder>) returns (values: Dict<string, Percent>)
    ensures values == UniformMap(fs, Hundredths(AutoShare(|fs|)))
  {
    var share := Hundredths(AutoShare(|fs|));
    values := EmptyDict();
    assert fs[..0] == [];
    var i := 0;
    while i < |fs|
      invariant 0 <= i <= |fs|
      invariant values == UniformMap(fs[..i], share)
    {
      UniformStep(fs, i, share);
      values := values.Put(fs[i].id, share);
      i := i + 1;
    }
    assert fs[..i] == fs;
  }

  /** `handleAutoSplitChange`: records the checkbox; checking it replaces the values by the
      equal split, unchecking keeps them as they are. */
  method HandleAutoSplitChange(s: FormState, checked: bool) returns (r: FormState)
    ensures checked ==> r == s.(autoSplit := true, values := UniformMap(s.founders, Hundredths(AutoShare(|s.founders|))))
    ensures !checked ==> r == s.(autoSplit := false)
  {
    r := s.(autoSplit := checked);
    if checked {
      var values := AutoSplit(s.founders);
      r := r.(values := values);
    }
  }

  /** With distinct founder ids the equal split adds up to `n` times the share, which is
      within half a hundredth per founder of 100%. */
  lemma AutoSplitTotal(fs: seq<Founder>)
    requires Distinct(Ids(fs)) && |fs| > 0
    ensures Total(UniformMap(fs, Hundredths(AutoShare(|fs|))).Values()) == Hundredths(|fs| * AutoShare(|fs|))
    ensures -(|fs|) < 2 * (|fs| * AutoShare(|fs|) - OneHundredPercent) <= |fs|
  {
    AutoShareBound(|fs|);
    var d := UniformMap(fs, Hundredths(AutoShare(|fs|)));
    DedupOfDistinct(Ids(fs));
    var vs := d.Values();
    assert |vs| == |fs|;
    forall i | 0 <= i < |vs| ensures vs[i] == Hundredths(AutoShare(|fs|)) {
      assert d.keys[i] in Ids(fs);
    }
    TotalOfEqualValues(vs, AutoShare(|fs|));
  }

  /** `{ ...equityValues, [userId]: parseFloat(value) }`. */
  function HandleEquityChange(values: Dict<string, Percent>, userId: string, value: Percent): (d: Dict<string, Percent>)
    requires values.Valid()
    ensures d.Valid()
    ensures userId in d.entries && d.entries[userId] == value
    ensures forall k :: k != userId ==> (k in d.entries <==> k in values.entries)
    ensures forall k :: k != userId && k in values.entries ==> d.entries[k] == values.entries[k]
  {
    values.Put(userId, value)
  }

  /** Typing a founder's old value back restores the object, key order included. */
  lemma EquityChangeUndo(values: Dict<string, Percent>, userId: string, value: Percent)
    requires values.Valid() && userId in values.entries
    ensures HandleEquityChange(HandleEquityChange(values, userId, value), userId, values.entries[userId]) == values
  {
    assert values.entries[userId := value][userId := values.entries[userId]] == values.entries;
  }

  /** One element of the POST body: `{ userId: founder.id, equity: parseFloat(equityValues[founder.id]) }`. */
  datatype EquityClaim = EquityClaim(userId: string, equity: Percent)

  /** `founders.map(...)`: one claim per founder in founder order; a founder without a
      value is sent as NaN. */
  function Payload(fs: seq<Founder>, values: Dict<string, Percent>): (r: seq<EquityClaim>)
    ensures |r| == |fs|
    ensures forall i :: 0 <= i < |fs| ==> r[i].userId == fs[i].id
    ensures forall i :: 0 <= i < |fs| ==>
              r[i].equity == if fs[i].id in values.entries then values.entries[fs[i].id] else NaN
  {
    seq(|fs|, i requires 0 <= i < |fs| =>
      EquityClaim(fs[i].id, if fs[i].id in values.entries then values.entries[fs[i].id] else NaN))
  }

  /** Submitting the values as first loaded sends each founder's stored equity back. */
  lemma PayloadOfInitial(fs: seq<Founder>, j: nat)
    requires Distinct(Ids(fs)) && j < |fs|
    ensures Payload(fs, InitialMap(fs))[j] == EquityClaim(fs[j].id, Hundredths(EquityOr0(fs[j])))
  {
    InitialMapPerFounder(fs, j);
  }

  /** The new state and the request sent, if any. */
  datatype Submission = Submission(state: FormState, request: Option<seq<EquityClaim>>)

  /** `handleSubmit`, with the outcome of the POST as `posted`. Both messages are cleared
      first; a total other than exactly 100% sets the mismatch error and sends nothing. */
  function HandleSubmit(s: FormState, posted: bool): (out: Submission)
    requires s.values.Valid()
    ensures out.state.founders == s.founders && out.state.values == s.values
    ensures out.state.autoSplit == s.autoSplit
    ensures out.request.Some? <==> Total(s.values.Values()) == Hundredths(OneHundredPercent)
    ensures out.request.None? ==>
              out.state.error == TotalNotHundred(Total(s.values.Values())) && out.state.success == ""
    ensures out.request.Some? ==> out.request.value == Payload(s.founders, s.values)
    ensures out.request.Some? && posted ==> out.state.error == NoError && out.state.success == SavedMessage
    ensures out.request.Some? && !posted ==> out.state.error == Message(SaveFailedMessage) && out.state.success == ""
  {
    var cleared := s.(error := NoError, success := "");
    var total := Total(s.values.Values());
    if total != Hundredths(OneHundredPercent) then
      Submission(cleared.(error := TotalNotHundred(total)), None)
    else
      var request := Payload(s.founders, s.values);
      if posted then Submission(cleared.(success := SavedMessage), Some(request))
      else Submission(cleared.(error := Message(SaveFailedMessage)), Some(request))
  }

  /** Auto-splitting three founders stores 33.33% each, 99.99% in all, so saving is refused. */
  lemma ThreeFoundersRejected(s: FormState, posted: bool)
    requires |s.founders| == 3 && Distinct(Ids(s.founders))
    requires s.values == UniformMap(s.founders, Hundredths(AutoShare(3)))
    ensures AutoShare(3) == 3333
    ensures HandleSubmit(s, posted).request == None
    ensures HandleSubmit(s, posted).state.error == TotalNotHundred(Hundredths(9999))
  {
    AutoSplitTotal(s.founders);
  }

  /** Four founders split evenly (25% each) can be saved. */
  lemma FourFoundersAccepted(s: FormState, posted: bool)
    requires |s.founders| == 4 && Distinct(Ids(s.founders))
    requires s.values == UniformMap(s.founders, Hundredths(AutoShare(4)))
    ensures HandleSubmit(s, posted).request == Some(Payload(s.founders, s.values))
  {
    AutoSplitTotal(s.founders);
  }
}
