/** Placing a prediction from the web front end
    (Frontend/hooks/use-prediction.ts, `makePrediction`): pick the pool's
    field literal, find a credits record that covers the stake, build the
    inputs of the program's `predict` transition and hand them to the
    wallet.  The wallet is a parameter: whether it is connected, whether it
    can sign transactions, what its record query gives and how it answers
    the transaction request. */
module Prediction {
  import opened Wrappers
  import opened Text
  import opened Numerals
  import opened Seqs
  import Worker
  import AdminApi

  const DefaultPoolId: string := "1field"
  const MicrocreditsPerCredit: nat := 1_000_000

  /** The two options of a pool. */
  type PoolOption = o: nat | o == 1 || o == 2 witness 1

  /** `stringToField` of the hook: a text that already ends in "field" is
      kept, any other gets "field" appended. */
  function ToField(s: string): (r: string)
    ensures EndsWith(r, "field")
    ensures EndsWith(s, "field") ==> r == s
    ensures !EndsWith(s, "field") ==> r == s + "field"
  {
    if EndsWith(s, "field") then s
    else
      var r := s + "field";
      assert r[|r| - 5..] == "field";
      r
  }

  /** Formatting a pool id twice is formatting it once. */
  lemma ToFieldIdempotent(s: string)
    ensures ToField(ToField(s)) == ToField(s)
  {
  }

  /** The pool id the transition receives; `undefined` selects the default
      pool. */
  function FormatPoolId(poolId: Option<string>): (r: string)
    ensures EndsWith(r, "field")
    ensures poolId.None? ==> r == DefaultPoolId
    ensures poolId.Some? && EndsWith(poolId.value, "field") ==> r == poolId.value
    ensures poolId.Some? && !EndsWith(poolId.value, "field") ==> r == poolId.value + "field"
  {
    assert DefaultPoolId[|DefaultPoolId| - 5..] == "field";
    ToField(poolId.GetOr(DefaultPoolId))
  }

  /** A record the wallet returned: its raw text and the `microcredits`
      value of its JSON, when the text parses and that value is a string. */
  datatype WalletRecord = WalletRecord(raw: string, microcredits: Option<string>)

  /** The balance of a `microcredits` value: the first "u64.private" and
      then the first "u64" are removed and the rest goes through `BigInt`. */
  function Balance(microcredits: string): (r: Option<int>) {
    ParseBigInt(RemoveFirst(RemoveFirst(microcredits, "u64.private"), "u64"))
  }

  /** The `find` callback: a credits record whose balance covers the stake. */
  predicate Suitable(rec: WalletRecord, stake: int) {
    && rec.microcredits.Some? && rec.microcredits.value != []
    && Balance(rec.microcredits.value).Some?
    && Balance(rec.microcredits.value).value >= stake
  }

  /** `records.find(...)`: the index of the first suitable record. */
  function FindSuitable(records: seq<WalletRecord>, stake: int): (r: Option<nat>)
    ensures r.Some? ==> r.value < |records| && Suitable(records[r.value], stake)
    ensures r.Some? ==> forall j :: 0 <= j < r.value ==> !Suitable(records[j], stake)
    ensures r.None? ==> forall j :: 0 <= j < |records| ==> !Suitable(records[j], stake)
  {
    FirstFrom(records, rec => Suitable(rec, stake), 0)
  }

  /** A pattern starting with 'u' occurs in a numeral followed by `tail`
      only where `tail` begins. */
  lemma NoPatternInDigits(d: string, tail: string, pat: string)
    requires AllDigits(d) && pat != [] && pat[0] == 'u'
    ensures forall j :: 0 <= j < |d| ==> !OccursAt(d + tail, pat, j)
  {
    var s := d + tail;
    forall j | 0 <= j < |d| ensures !OccursAt(s, pat, j) {
      assert s[j] == d[j] && IsDigit(d[j]);
      if j + |pat| <= |s| {
        assert s[j..j + |pat|][0] == s[j];
      }
    }
  }

  /** A private balance as the ledger prints it reads back as itself. */
  lemma PrivateBalanceReadsBack(n: nat)
    ensures Balance(NatToDecimal(n) + "u64.private") == Some(n)
  {
    var d := NatToDecimal(n);
    forall i | 0 <= i < |d| ensures d[i] != "u64.private"[0] { assert IsDigit(d[i]); }
    RemoveFirstOfSuffix(d, "u64.private");
    NoPatternInDigits(d, [], "u64");
    assert d + [] == d;
    ParseBigIntOfDecimal(n);
  }

  /** So does a public one. */
  lemma PublicBalanceReadsBack(n: nat)
    ensures Balance(NatToDecimal(n) + "u64") == Some(n)
  {
    var d := NatToDecimal(n);
    NoPatternInDigits(d, "u64", "u64.private");
    forall i | 0 <= i < |d| ensures d[i] != "u64"[0] { assert IsDigit(d[i]); }
    RemoveFirstOfSuffix(d, "u64");
    ParseBigIntOfDecimal(n);
  }

  /** What the wallet's record query gives: no such capability, a thrown
      error, or a possibly missing list. */
  datatype RecordsReply = NoRecordQuery | RecordsFailed | Records(list: Option<seq<WalletRecord>>)

  /** How the wallet answers a transaction request: a (possibly missing)
      transaction id, or a thrown value, with its message when it is an
      `Error`. */
  datatype WalletReply = Submitted(transactionId: Option<string>) | Threw(message: Option<string>)

  datatype Wallet = Wallet(
    publicKey: Option<string>,
    canTransact: bool,
    records: RecordsReply,
    transact: seq<string> -> WalletReply)

  /** `!publicKey` is false: a key is present and is not the empty text. */
  predicate Connected(w: Wallet) {
    w.publicKey.Some? && w.publicKey.value != []
  }

  /** The credits record to attach, if one was found. */
  function CreditsRecord(records: RecordsReply, stake: int): (r: Option<string>)
    ensures r.Some? ==> records.Records? && records.list.Some?
                        && exists i :: 0 <= i < |records.list.value| && records.list.value[i].raw == r.value
                                       && Suitable(records.list.value[i], stake)
  {
    match records
    case Records(Some(list)) =>
      (match FindSuitable(list, stake)
       case Some(i) => Some(list[i].raw)
       case None => None)
    case _ => None
  }

  /** The inputs of `predict`: pool id, option, stake in microcredits and the
      random number as `u64` literals, then the credits record when one was
      found and its text is not empty. */
  function PredictInputs(poolId: Option<string>, option: PoolOption, amount: int, random: nat,
                         record: Option<string>): (r: seq<string>)
    ensures |r| == 4 || |r| == 5
    ensures |r| == 5 <==> record.Some? && record.value != []
    ensures r[0] == FormatPoolId(poolId)
    ensures |r| == 5 ==> r[4] == record.value
  {
    var base := [FormatPoolId(poolId), U64Literal(option as int), U64Literal(amount * MicrocreditsPerCredit),
                 U64Literal(random)];
    if record.Some? && record.value != [] then base + [record.value] else base
  }

  /** The option, the stake in microcredits and the random number read back
      from the inputs; a negative amount gives no `u64` literal. */
  lemma PredictInputsReadBack(poolId: Option<string>, option: PoolOption, amount: int, random: nat,
                              record: Option<string>)
    ensures var r := PredictInputs(poolId, option, amount, random, record);
            && ParseU64Literal(r[1]) == Some(option as nat)
            && (amount >= 0 ==> ParseU64Literal(r[2]) == Some(amount * MicrocreditsPerCredit))
            && (amount < 0 ==> ParseU64Literal(r[2]) == None)
            && ParseU64Literal(r[3]) == Some(random)
  {
    var r := PredictInputs(poolId, option, amount, random, record);
    var stake := amount * MicrocreditsPerCredit;
    assert r[1] == U64Literal(option as int) && r[2] == U64Literal(stake) && r[3] == U64Literal(random);
    assert amount >= 0 <==> stake >= 0;
    U64LiteralRoundTrip(option as int);
    U64LiteralRoundTrip(stake);
    U64LiteralRoundTrip(random);
  }

  datatype Status = Success | Failure

  /** The hook's `PredictionResult`. */
  datatype PredictionResult = PredictionResult(transactionId: Option<string>, status: Status, error: Option<string>)

  /** The result, and the inputs handed to the wallet if a transaction was
      requested. */
  datatype Outcome = Outcome(result: PredictionResult, sent: Option<seq<string>>)

  /** `makePrediction` with `random` as the generated random number. */
  function MakePrediction(w: Wallet, poolId: Option<string>, option: PoolOption, amount: int, random: nat): (r: Outcome)
    ensures !Connected(w) ==>
              r == Outcome(PredictionResult(None, Failure, Some("Wallet not connected")), None)
    ensures Connected(w) && !w.canTransact ==>
              r == Outcome(PredictionResult(None, Failure, Some("Wallet does not support transactions")), None)
    ensures Connected(w) && w.canTransact ==>
              r.sent == Some(PredictInputs(poolId, option, amount, random,
                                           CreditsRecord(w.records, amount * MicrocreditsPerCredit)))
    ensures r.result.status == Success <==> r.sent.Some? && w.transact(r.sent.value).Submitted?
    ensures r.result.status == Success ==> r.result.error.None?
                                           && r.result.transactionId == w.transact(r.sent.value).transactionId
    ensures r.result.status == Failure ==> r.result.transactionId.None? && r.result.error.Some?
  {
    if !Connected(w) then Outcome(PredictionResult(None, Failure, Some("Wallet not connected")), None)
    else if !w.canTransact then
      Outcome(PredictionResult(None, Failure, Some("Wallet does not support transactions")), None)
    else
      var stake := amount * MicrocreditsPerCredit;
      var inputs := PredictInputs(poolId, option, amount, random, CreditsRecord(w.records, stake));
      match w.transact(inputs)
      case Submitted(id) => Outcome(PredictionResult(id, Success, None), Some(inputs))
      case Threw(msg) => Outcome(PredictionResult(None, Failure, Some(msg.GetOr("Transaction failed"))), Some(inputs))
  }

  /** A failed request reports the thrown error's message, or "Transaction
      failed" when what was thrown is no `Error`. */
  lemma FailureMessage(w: Wallet, poolId: Option<string>, option: PoolOption, amount: int, random: nat)
    requires Connected(w) && w.canTransact
    ensures var r := MakePrediction(w, poolId, option, amount, random);
            w.transact(r.sent.value).Threw? ==>
              r.result.error == Some(w.transact(r.sent.value).message.GetOr("Transaction failed"))
  {
  }

  /** When the wallet holds a suitable record, the first one in its list is
      the one attached, and a record that does not cover the stake never is. */
  lemma AttachesFirstSuitable(records: seq<WalletRecord>, stake: int, i: nat)
    requires i < |records| && Suitable(records[i], stake)
    requires forall j :: 0 <= j < i ==> !Suitable(records[j], stake)
    ensures CreditsRecord(Records(Some(records)), stake) == Some(records[i].raw)
  {
    var k := FindSuitable(records, stake);
    assert k.Some?;
  }

  /** A pool the front end stakes on by the id the admin API generated is
      addressed by the key the worker's sync phase reads for that market,
      and so is the default pool. */
  lemma StakesOnCreatedPool(title: string, now: nat)
    ensures Worker.PoolKey(AdminApi.MarketId(title, now)) == Some(FormatPoolId(Some(AdminApi.MarketId(title, now))))
    ensures Worker.PoolKey(DefaultPoolId) == Some(FormatPoolId(None))
  {
    assert DefaultPoolId[|DefaultPoolId| - 5..] == "field";
  }
}
