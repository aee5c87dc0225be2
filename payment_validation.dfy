/**
 * The strict payment-screenshot validator: from OCR text to a validation summary
 * (matched flag, reasons, candidate amounts, matched amount, payee evidence).
 */
module PaymentValidation {
  import opened Wrappers
  import opened Text
  import opened Regex

  /** The accepted payment amounts, in priority order. */
  const AllowedAmounts: seq<nat> := [900, 7900]

  // ---------------------------------------------------------------- text preparation

  /** `normalizeText`: a missing or empty text becomes "", anything else is lower-cased. */
  function NormalizeText(text: Option<string>): (r: string)
    ensures text.None? ==> r == ""
    ensures text.Some? ==> r == Lower(text.value)
  {
    match text
    case None => ""
    case Some(t) => if t == "" then "" else Lower(t)
  }

  /** `replaceAmbiguousCharacters`: `o` becomes `0`, then `$` becomes `s`. */
  function ReplaceAmbiguousCharacters(s: string): (r: string)
    ensures |r| == |s|
    ensures 'o' !in r && '$' !in r
    ensures forall i :: 0 <= i < |s| ==>
      r[i] == (if s[i] == 'o' then '0' else if s[i] == '$' then 's' else s[i])
  {
    ReplaceChar(ReplaceChar(s, 'o', '0'), '$', 's')
  }

  /** After the substitution no `amount` and no `total` can occur: both words contain an `o`. */
  lemma AmountAndTotalKeywordsAreDead(s: string)
    ensures !Contains(ReplaceAmbiguousCharacters(s), "amount")
    ensures !Contains(ReplaceAmbiguousCharacters(s), "total")
  {
    var r := ReplaceAmbiguousCharacters(s);
    forall k: nat | k <= |r| ensures !OccursAt(r, "amount", k) && !OccursAt(r, "total", k) {
      if k + 6 <= |r| {
        assert r[k..k + 6][2] == r[k + 2] != 'o';
      }
      if k + 5 <= |r| {
        assert r[k..k + 5][1] == r[k + 1] != 'o';
      }
    }
  }

  // ---------------------------------------------------------------- patterns used with test()

  /** `(?:₹|rs\.?|inr\.?|amount|paid|payment|total)` */
  const KeywordPattern: Pat := Alt([
    Lit([Rupee]),
    Cat([Lit("rs"), Opt(Lit("."))]),
    Cat([Lit("inr"), Opt(Lit("."))]),
    Lit("amount"), Lit("paid"), Lit("payment"), Lit("total")])

  /** `\b(?:name\s*[:\-]?\s*)?aditya\s+kuveskar\b` with the `i` flag. */
  const PayeePattern: Pat := Cat([
    Boundary,
    Opt(Cat([Lit("name"), Star(Space), Opt(One(AnyOf({':', '-'}))), Star(Space)])),
    Lit("aditya"), Plus(Space), Lit("kuveskar"), Boundary])

  /** `\bnine\s*(?:hund(?:red)?)\b(?:\s*(?:and)?\s*(?:00|zero|0))?` with the `i` flag. */
  const SpelledOutPattern: Pat := Cat([
    Boundary, Lit("nine"), Star(Space), Lit("hund"), Opt(Lit("red")), Boundary,
    Opt(Cat([Star(Space), Opt(Lit("and")), Star(Space), Alt([Lit("00"), Lit("zero"), Lit("0")])]))])

  /** The per-amount currency pattern `KEYWORD\s*[:=]?\s*AMOUNT(?:\.00)?\b`. */
  function CurrencyContextPattern(amount: nat): Pat {
    Cat([KeywordPattern, Star(Space), Opt(One(AnyOf({':', '='}))), Star(Space),
         Lit(NatToString(amount)), Opt(Lit(".00")), Boundary])
  }

  /** The per-amount bare pattern `\bAMOUNT(?:\.00)?\b`. */
  function BareAmountPattern(amount: nat): Pat {
    Cat([Boundary, Lit(NatToString(amount)), Opt(Lit(".00")), Boundary])
  }

  // ---------------------------------------------------------------- the two exec() scans

  /** One match of a scanning regex: where it starts and ends, and the number it captured. */
  datatype Match = Match(start: nat, end: nat, value: real)

  /**
   * The two global regexes of `extractCandidateAmounts`:
   * Keyworded is `(?:₹|rs\.?|inr\.?|amount|paid|payment|total)\s*[:=]?\s*([0-9]+(?:[.,][0-9]+)?)`,
   * Bare is `\b([0-9]{2,6})(?:[.,][0-9]{2})?\b`.
   */
  datatype Scanner = Keyworded | Bare

  /** The end of the digit run that starts at `i`. */
  function DigitRunEnd(s: string, i: nat): (j: nat)
    requires i <= |s|
    ensures i <= j <= |s| && AllInClass(Digit, s, i, j)
    ensures j < |s| ==> !IsDigit(s[j])
    decreases |s| - i
  {
    if i < |s| && IsDigit(s[i]) then DigitRunEnd(s, i + 1) else i
  }

  /** The end of the amount keyword at `i` (with the optional `.` after `rs`/`inr`), if there is one. */
  function KeywordEnd(s: string, i: nat): (r: Option<nat>)
    requires i <= |s|
    ensures r.Some? ==> i < r.value <= |s|
  {
    KeywordEndFrom(s, i, 0)
  }

  /** The keyword alternatives in the order they are tried, each with whether `\.?` follows it. */
  const Keywords: seq<(string, bool)> := [
    ([Rupee], false), ("rs", true), ("inr", true), ("amount", false), ("paid", false),
    ("payment", false), ("total", false)]

  function KeywordEndFrom(s: string, i: nat, n: nat): (r: Option<nat>)
    requires i <= |s| && n <= |Keywords|
    ensures r.Some? ==> i < r.value <= |s|
    decreases |Keywords| - n
  {
    if n == |Keywords| then None
    else
      var (w, dot) := Keywords[n];
      if OccursAt(s, w, i) then
        Some(if dot && OccursAt(s, ".", i + |w|) then i + |w| + 1 else i + |w|)
      else KeywordEndFrom(s, i, n + 1)
  }

  function Pow10(n: nat): (p: nat)
    ensures p >= 1
  {
    if n == 0 then 1 else 10 * Pow10(n - 1)
  }

  lemma AllDigitsSlice(s: string, i: nat, j: nat)
    requires i <= j <= |s| && AllInClass(Digit, s, i, j)
    ensures forall k :: 0 <= k < |s[i..j]| ==> IsDigit(s[i..j][k])
  {
    forall k | 0 <= k < |s[i..j]| ensures IsDigit(s[i..j][k]) {
      assert s[i..j][k] == s[i + k] && InClass(Digit, s[i + k]);
    }
  }

  /** The value of the digits after a decimal point: `FractionValue("25")` is 0.25. */
  function FractionValue(ds: string): (v: real)
    requires forall k :: 0 <= k < |ds| ==> IsDigit(ds[k])
    ensures 0.0 <= v < 1.0
  {
    if ds == [] then 0.0 else (DigitValue(ds[0]) as real + FractionValue(ds[1..])) / 10.0
  }

  /**
   * `parseFloat` of the capture `s[a..f]` after its commas are removed, where `s[a..d]` are the
   * integer digits and, when `f > d`, `s[d]` is the separator and `s[d+1..f]` the other digits.
   */
  function CapturedValue(s: string, a: nat, d: nat, f: nat): real
    requires a <= d <= f <= |s| && AllInClass(Digit, s, a, d)
    requires f > d ==> s[d] in {'.', ','} && AllInClass(Digit, s, d + 1, f)
  {
    AllDigitsSlice(s, a, d);
    var whole := DigitsValue(s[a..d]);
    if f == d then whole as real
    else
      AllDigitsSlice(s, d + 1, f);
      if s[d] == ',' then DigitsValue(s[a..d] + s[d + 1..f]) as real
      else whole as real + FractionValue(s[d + 1..f])
  }

  /**
   * The match of the keyworded regex that starts exactly at `i`. The alternatives of the keyword
   * group cannot both occur at one position, `\s*[:=]?\s*` can only stop before the first
   * character that is neither a space nor the one optional separator, and `[0-9]+` followed by
   * an optional group and nothing else is taken greedily, so backtracking never changes the
   * first match found at `i`.
   */
  function KeywordedMatchAt(s: string, i: nat): (r: Option<Match>)
    requires i <= |s|
    ensures r.Some? ==> r.value.start == i && i < r.value.end <= |s|
  {
    match KeywordEnd(s, i)
    case None => None
    case Some(k) =>
      match AmountAfterKeyword(s, k, false)
      case None => None
      case Some((e, v)) => Some(Match(i, e, v))
  }

  /**
   * `\s*[:=]?\s*([0-9]+(?:[.,][0-9]+)?)` read from `j`, where `separated` says whether the one
   * optional `:` or `=` has already been passed: the end of the match and the captured number.
   */
  function AmountAfterKeyword(s: string, j: nat, separated: bool): (r: Option<(nat, real)>)
    requires j <= |s|
    ensures r.Some? ==> j < r.value.0 <= |s|
    decreases |s| - j
  {
    if j < |s| && IsSpace(s[j]) then AmountAfterKeyword(s, j + 1, separated)
    else if j < |s| && s[j] in {':', '='} && !separated then AmountAfterKeyword(s, j + 1, true)
    else
      var d := DigitRunEnd(s, j);
      if d == j then None
      else if d + 1 < |s| && s[d] in {'.', ','} && IsDigit(s[d + 1]) then
        var f := DigitRunEnd(s, d + 1);
        Some((f, CapturedValue(s, j, d, f)))
      else Some((d, CapturedValue(s, j, d, d)))
  }

  /**
   * The match of the bare-number regex that starts exactly at `i`. Both `\b` checks sit next to
   * digits, so `[0-9]{2,6}` can only succeed on a whole digit run of two to six digits.
   */
  function BareMatchAt(s: string, i: nat): (r: Option<Match>)
    requires i <= |s|
    ensures r.Some? ==> r.value.start == i && i < r.value.end <= |s|
  {
    if i < |s| && IsDigit(s[i]) && AtBoundary(s, i) then
      var d := DigitRunEnd(s, i);
      if 2 <= d - i <= 6 then
        if d + 3 <= |s| && s[d] in {'.', ','} && IsDigit(s[d + 1]) && IsDigit(s[d + 2])
           && AtBoundary(s, d + 3) then
          Some(Match(i, d + 3, CapturedValue(s, i, d, d)))
        else if AtBoundary(s, d) then Some(Match(i, d, CapturedValue(s, i, d, d)))
        else None
      else None
    else None
  }

  function MatchAt(sc: Scanner, s: string, i: nat): (r: Option<Match>)
    requires i <= |s|
    ensures r.Some? ==> r.value.start == i && i < r.value.end <= |s|
  {
    match sc
    case Keyworded => KeywordedMatchAt(s, i)
    case Bare => BareMatchAt(s, i)
  }

  /** `regex.exec(s)` with `lastIndex == p`: the leftmost match starting at or after `p`. */
  function Exec(sc: Scanner, s: string, p: nat): (r: Option<Match>)
    requires p <= |s|
    ensures r.Some? ==> p <= r.value.start < r.value.end <= |s| && MatchAt(sc, s, r.value.start) == r
    ensures r.Some? ==> forall q :: p <= q < r.value.start ==> MatchAt(sc, s, q).None?
    ensures r.None? ==> forall q :: p <= q <= |s| ==> MatchAt(sc, s, q).None?
    decreases |s| - p
  {
    match MatchAt(sc, s, p)
    case Some(m) => Some(m)
    case None => if p == |s| then None else Exec(sc, s, p + 1)
  }

  /** The matches the `while ((match = regex.exec(text)) !== null)` loop visits from `p` on. */
  function Scan(sc: Scanner, s: string, p: nat): (r: seq<Match>)
    requires p <= |s|
    ensures forall k :: 0 <= k < |r| ==> p <= r[k].start < r[k].end <= |s|
    decreases |s| - p
  {
    match Exec(sc, s, p)
    case None => []
    case Some(m) => [m] + Scan(sc, s, m.end)
  }

  function Values(ms: seq<Match>): (vs: seq<real>)
    ensures |vs| == |ms| && forall k :: 0 <= k < |ms| ==> vs[k] == ms[k].value
  {
    if ms == [] then [] else [ms[0].value] + Values(ms[1..])
  }

  /** Pushing one match's value before the values of the remaining matches. */
  lemma PushOne(before: seq<real>, m: Match, rest: seq<Match>)
    ensures before + Values([m] + rest) == (before + [m.value]) + Values(rest)
  {
    assert ([m] + rest)[1..] == rest;
  }

  /** The candidate amounts: every keyworded amount in text order, then every bare number. */
  function CandidateAmounts(s: string): seq<real> {
    Values(Scan(Keyworded, s, 0)) + Values(Scan(Bare, s, 0))
  }

  /** Unfolding the scan once. */
  lemma ScanUnfold(sc: Scanner, s: string, p: nat)
    requires p <= |s|
    ensures Exec(sc, s, p).None? ==> Scan(sc, s, p) == []
    ensures Exec(sc, s, p).Some? ==>
      Scan(sc, s, p) == [Exec(sc, s, p).value] + Scan(sc, s, Exec(sc, s, p).value.end)
  {
  }

  /** Each match of `ms` is the leftmost-greedy match of `s` at its own start. */
  predicate AllMatchesAt(sc: Scanner, s: string, ms: seq<Match>) {
    forall k :: 0 <= k < |ms| ==> ms[k].start <= |s| && MatchAt(sc, s, ms[k].start) == Some(ms[k])
  }

  /** Every match the scan visits is the leftmost-greedy match at its own start. */
  lemma {:induction false} ScanVisitsMatches(sc: Scanner, s: string, p: nat)
    requires p <= |s|
    ensures AllMatchesAt(sc, s, Scan(sc, s, p))
    decreases |s| - p
  {
    ScanUnfold(sc, s, p);
    if Exec(sc, s, p).Some? {
      var m := Exec(sc, s, p).value;
      ScanVisitsMatches(sc, s, m.end);
      ConsMatchesAt(sc, s, m, Scan(sc, s, m.end));
    }
  }

  lemma ConsMatchesAt(sc: Scanner, s: string, m: Match, rest: seq<Match>)
    requires m.start <= |s| && MatchAt(sc, s, m.start) == Some(m) && AllMatchesAt(sc, s, rest)
    ensures AllMatchesAt(sc, s, [m] + rest)
  {
    var all := [m] + rest;
    forall k | 0 <= k < |all| ensures all[k].start <= |s| && MatchAt(sc, s, all[k].start) == Some(all[k]) {
      if k > 0 {
        assert all[k] == rest[k - 1];
      }
    }
  }

  /** Matches in text order that never overlap: each ends before the next one starts. */
  predicate InTextOrder(ms: seq<Match>) {
    forall k, l :: 0 <= k < l < |ms| ==> ms[k].end <= ms[l].start
  }

  /** The scan visits matches in text order and they never overlap. */
  lemma {:induction false} ScanInTextOrder(sc: Scanner, s: string, p: nat)
    requires p <= |s|
    ensures InTextOrder(Scan(sc, s, p))
    decreases |s| - p
  {
    ScanUnfold(sc, s, p);
    if Exec(sc, s, p).Some? {
      var m := Exec(sc, s, p).value;
      ScanInTextOrder(sc, s, m.end);
      ConsInTextOrder(m, Scan(sc, s, m.end));
    }
  }

  /** A match that ends before every later one starts keeps a list in text order. */
  lemma ConsInTextOrder(m: Match, rest: seq<Match>)
    requires InTextOrder(rest)
    requires forall k :: 0 <= k < |rest| ==> m.end <= rest[k].start
    ensures InTextOrder([m] + rest)
  {
    var all := [m] + rest;
    forall k, l | 0 <= k < l < |all| ensures all[k].end <= all[l].start {
      assert all[l] == rest[l - 1];
      if k > 0 {
        assert all[k] == rest[k - 1];
      }
    }
  }

  /** The scan finds nothing exactly when no position from `p` on starts a match. */
  lemma ScanEmptyIff(sc: Scanner, s: string, p: nat)
    requires p <= |s|
    ensures Scan(sc, s, p) == [] <==> forall q :: p <= q <= |s| ==> MatchAt(sc, s, q).None?
  {
    ScanUnfold(sc, s, p);
  }

  predicate IsWholeBelow(v: real, bound: nat) {
    v == v.Floor as real && 0 <= v.Floor < bound
  }

  /** A bare candidate is always a whole number below one million (at most six digits). */
  lemma {:induction false} BareValuesAreSmallWholeNumbers(s: string, p: nat)
    requires p <= |s|
    ensures forall k :: 0 <= k < |Scan(Bare, s, p)| ==>
      IsWholeBelow(Scan(Bare, s, p)[k].value, 1000000)
    decreases |s| - p
  {
    ScanUnfold(Bare, s, p);
    if Exec(Bare, s, p).Some? {
      var m := Exec(Bare, s, p).value;
      BareValuesAreSmallWholeNumbers(s, m.end);
      BareMatchSmallWhole(s, m.start);
      var all, rest := Scan(Bare, s, p), Scan(Bare, s, m.end);
      forall k | 0 <= k < |all| ensures IsWholeBelow(all[k].value, 1000000) {
        if k > 0 {
          assert all[k] == rest[k - 1];
        }
      }
    }
  }

  /** The number of one bare match is the value of its two to six digits. */
  lemma BareMatchSmallWhole(s: string, i: nat)
    requires i <= |s| && BareMatchAt(s, i).Some?
    ensures IsWholeBelow(BareMatchAt(s, i).value.value, 1000000)
  {
    var d := DigitRunEnd(s, i);
    AllDigitsSlice(s, i, d);
    DigitsValueBound(s[i..d]);
    Pow10Mono(|s[i..d]|, 6);
    var v := DigitsValue(s[i..d]);
    assert BareMatchAt(s, i).value.value == v as real;
    assert Pow10(6) == 1000000;
  }

  lemma {:induction false} Pow10Mono(a: nat, b: nat)
    requires a <= b
    ensures Pow10(a) <= Pow10(b)
    decreases b
  {
    if a < b {
      Pow10Mono(a, b - 1);
    }
  }

  lemma {:induction false} DigitsValueBound(ds: string)
    requires forall k :: 0 <= k < |ds| ==> IsDigit(ds[k])
    ensures DigitsValue(ds) < Pow10(|ds|)
    decreases |ds|
  {
    if ds != [] {
      DigitsValueBound(ds[..|ds| - 1]);
    }
  }

  /**
   * One `while ((match = regex.exec(text)) !== null)` loop of `extractCandidateAmounts`:
   * starting from `lastIndex` 0, push every match's number onto `amounts`.
   */
  method PushAllMatches(sc: Scanner, text: string, amounts: seq<real>) returns (pushed: seq<real>)
    ensures pushed == amounts + Values(Scan(sc, text, 0))
  {
    pushed := amounts;
    var lastIndex := 0;
    var m := Exec(sc, text, lastIndex);
    while m.Some?
      invariant lastIndex <= |text| && m == Exec(sc, text, lastIndex)
      invariant pushed + Values(Scan(sc, text, lastIndex)) == amounts + Values(Scan(sc, text, 0))
      decreases |text| - lastIndex
    {
      ScanUnfold(sc, text, lastIndex);
      PushOne(pushed, m.value, Scan(sc, text, m.value.end));
      pushed := pushed + [m.value.value];
      lastIndex := m.value.end;
      m := Exec(sc, text, lastIndex);
    }
    assert Scan(sc, text, lastIndex) == [];
  }

  /** `extractCandidateAmounts`: the keyworded loop, then the bare-number loop, into one array. */
  method ExtractCandidateAmounts(text: string) returns (amounts: seq<real>)
    ensures amounts == CandidateAmounts(text)
  {
    amounts := PushAllMatches(Keyworded, text, []);
    amounts := PushAllMatches(Bare, text, amounts);
  }

  // ---------------------------------------------------------------- the summary

  datatype Reason = CurrencyContext | NumericPattern | NumericAmount | SpelledOut | PayeeName | MissingPayeeName

  /** The tag strings the summary carries. */
  function Tag(r: Reason): string {
    match r
    case CurrencyContext => "currency_context"
    case NumericPattern => "numeric_pattern"
    case NumericAmount => "numeric_amount"
    case SpelledOut => "spelled_out"
    case PayeeName => "payee_name"
    case MissingPayeeName => "missing_payee_name"
  }

  /** The position of an amount rule in the fixed order the rules are tried. */
  function Rank(r: Reason): nat {
    match r
    case CurrencyContext => 0
    case NumericPattern => 1
    case NumericAmount => 2
    case SpelledOut => 3
    case PayeeName => 4
    case MissingPayeeName => 4
  }

  predicate IsAmountRule(r: Reason) { Rank(r) < 4 }

  datatype Summary = Summary(
    matched: bool,
    reasons: seq<Reason>,
    amounts: seq<real>,
    matchedAmount: Option<nat>,
    payeeNameDetected: bool)

  const EmptySummary: Summary := Summary(false, [], [], None, false)

  /** The texts and facts the rules look at, derived once from the raw OCR text. */
  datatype Evidence = Evidence(
    normalized: string,     // lower-cased
    zeroFriendly: string,   // lower-cased, `o` -> `0`, `$` -> `s`
    sanitized: string,      // zeroFriendly without `,` and `₹`
    amounts: seq<real>,
    payee: bool)

  function EvidenceOf(raw: string): Evidence {
    var normalized := Lower(raw);
    var zeroFriendly := ReplaceAmbiguousCharacters(normalized);
    Evidence(normalized, zeroFriendly, RemoveChars(zeroFriendly, {',', Rupee}),
             CandidateAmounts(zeroFriendly), Test(PayeePattern, normalized))
  }

  /** `approxEqual`: within 0.01. */
  predicate ApproxEqual(value: real, target: real) {
    (if value >= target then value - target else target - value) <= 0.01
  }

  predicate SomeCandidateNear(amounts: seq<real>, target: nat) {
    exists k :: 0 <= k < |amounts| && ApproxEqual(amounts[k], target as real)
  }

  /** Which of the four amount rules fire for one amount. */
  datatype Hits = Hits(currencyContext: bool, numericPattern: bool, numericAmount: bool, spelledOut: bool)

  /**
   * The four rules for one amount: it follows a currency keyword in the substituted text
   * (`currency_context`); it is a whole word of the substituted text without `,` and `₹`
   * (`numeric_pattern`); a candidate lies within 0.01 of it (`numeric_amount`); "nine hundred"
   * is spelled out in the original text, which counts for 900 only (`spelled_out`).
   */
  function HitsFor(ev: Evidence, amount: nat): Hits {
    Hits(Test(CurrencyContextPattern(amount), ev.zeroFriendly),
         Test(BareAmountPattern(amount), ev.sanitized),
         SomeCandidateNear(ev.amounts, amount),
         Test(SpelledOutPattern, ev.normalized) && amount == 900)
  }

  predicate AnyHit(h: Hits) {
    h.currencyContext || h.numericPattern || h.numericAmount || h.spelledOut
  }

  /** `reasons.push(tag)` when the rule fired. */
  function PushIf(reasons: seq<Reason>, fired: bool, tag: Reason): seq<Reason> {
    if fired then reasons + [tag] else reasons
  }

  /** The four rules' outcomes with their tags, in the order the rules are tried. */
  function Outcomes(h: Hits): seq<(bool, Reason)> {
    [(h.currencyContext, CurrencyContext), (h.numericPattern, NumericPattern),
     (h.numericAmount, NumericAmount), (h.spelledOut, SpelledOut)]
  }

  /** Push the tag of every fired rule of `outcomes` onto `reasons`, one rule after another. */
  function PushFired(reasons: seq<Reason>, outcomes: seq<(bool, Reason)>): seq<Reason>
    decreases |outcomes|
  {
    if outcomes == [] then reasons
    else PushFired(PushIf(reasons, outcomes[0].0, outcomes[0].1), outcomes[1..])
  }

  /** The tags of the rules that fired, pushed in the order the rules are tried. */
  function ReasonsOf(h: Hits): seq<Reason> {
    PushFired([], Outcomes(h))
  }

  /** A tag ends up pushed iff it was there before or some fired rule carries it. */
  lemma {:induction false} PushFiredMembers(reasons: seq<Reason>, outcomes: seq<(bool, Reason)>)
    ensures forall x :: x in PushFired(reasons, outcomes) <==>
      x in reasons || exists i :: 0 <= i < |outcomes| && outcomes[i] == (true, x)
    decreases |outcomes|
  {
    if outcomes != [] {
      var next := PushIf(reasons, outcomes[0].0, outcomes[0].1);
      PushFiredMembers(next, outcomes[1..]);
      forall x ensures (exists i :: 0 <= i < |outcomes| && outcomes[i] == (true, x)) <==>
        outcomes[0] == (true, x) || exists i :: 0 <= i < |outcomes[1..]| && outcomes[1..][i] == (true, x)
      {
        if exists i :: 0 <= i < |outcomes| && outcomes[i] == (true, x) {
          var i :| 0 <= i < |outcomes| && outcomes[i] == (true, x);
          if i > 0 {
            assert outcomes[1..][i - 1] == (true, x);
          }
        }
        if exists i :: 0 <= i < |outcomes[1..]| && outcomes[1..][i] == (true, x) {
          var i :| 0 <= i < |outcomes[1..]| && outcomes[1..][i] == (true, x);
          assert outcomes[i + 1] == (true, x);
        }
      }
    }
  }

  /** The ranks of `r` strictly increase, so no tag occurs twice. */
  predicate RanksIncrease(r: seq<Reason>) {
    forall k, l :: 0 <= k < l < |r| ==> Rank(r[k]) < Rank(r[l])
  }

  predicate RanksBelow(r: seq<Reason>, bound: nat) {
    forall k :: 0 <= k < |r| ==> Rank(r[k]) < bound
  }

  /** Tags in strictly increasing rank stay so when only tags of still higher rank are pushed. */
  lemma {:induction false} PushFiredRanked(reasons: seq<Reason>, outcomes: seq<(bool, Reason)>, bound: nat)
    requires RanksIncrease(reasons) && RanksBelow(reasons, bound)
    requires forall k :: 0 <= k < |reasons| ==> forall i :: 0 <= i < |outcomes| ==> Rank(reasons[k]) < Rank(outcomes[i].1)
    requires forall i, j :: 0 <= i < j < |outcomes| ==> Rank(outcomes[i].1) < Rank(outcomes[j].1)
    requires forall i :: 0 <= i < |outcomes| ==> Rank(outcomes[i].1) < bound
    ensures RanksIncrease(PushFired(reasons, outcomes)) && RanksBelow(PushFired(reasons, outcomes), bound)
    decreases |outcomes|
  {
    if outcomes != [] {
      var next := PushIf(reasons, outcomes[0].0, outcomes[0].1);
      var rest := outcomes[1..];
      assert forall i :: 0 <= i < |rest| ==> rest[i] == outcomes[i + 1];
      if outcomes[0].0 {
        assert next == reasons + [outcomes[0].1];
      }
      assert forall k :: 0 <= k < |next| ==> forall i :: 0 <= i < |rest| ==> Rank(next[k]) < Rank(rest[i].1);
      PushFiredRanked(next, rest, bound);
    }
  }

  /** The tags name exactly the rules that fired; there are none exactly when no rule fired. */
  lemma ReasonsOfMembers(h: Hits)
    ensures ReasonsOf(h) == [] <==> !AnyHit(h)
    ensures CurrencyContext in ReasonsOf(h) <==> h.currencyContext
    ensures NumericPattern in ReasonsOf(h) <==> h.numericPattern
    ensures NumericAmount in ReasonsOf(h) <==> h.numericAmount
    ensures SpelledOut in ReasonsOf(h) <==> h.spelledOut
  {
    var o := Outcomes(h);
    PushFiredMembers([], o);
    forall x ensures (exists i :: 0 <= i < |o| && o[i] == (true, x)) <==>
      ((x, true) in {(CurrencyContext, h.currencyContext), (NumericPattern, h.numericPattern),
                     (NumericAmount, h.numericAmount), (SpelledOut, h.spelledOut)})
    {
      if x == CurrencyContext && h.currencyContext { assert o[0] == (true, x); }
      if x == NumericPattern && h.numericPattern { assert o[1] == (true, x); }
      if x == NumericAmount && h.numericAmount { assert o[2] == (true, x); }
      if x == SpelledOut && h.spelledOut { assert o[3] == (true, x); }
    }
    if AnyHit(h) {
      assert h.currencyContext ==> CurrencyContext in ReasonsOf(h);
      assert h.numericPattern ==> NumericPattern in ReasonsOf(h);
      assert h.numericAmount ==> NumericAmount in ReasonsOf(h);
      assert h.spelledOut ==> SpelledOut in ReasonsOf(h);
    }
    if ReasonsOf(h) != [] {
      assert ReasonsOf(h)[0] in ReasonsOf(h);
    }
  }

  /** The tags are amount-rule tags, each at most once, in the fixed rule order. */
  lemma ReasonsOfRanked(h: Hits)
    ensures forall k :: 0 <= k < |ReasonsOf(h)| ==> IsAmountRule(ReasonsOf(h)[k])
    ensures RanksIncrease(ReasonsOf(h))
  {
    var o := Outcomes(h);
    assert forall i :: 0 <= i < |o| ==> Rank(o[i].1) == i;
    PushFiredRanked([], o, 4);
  }

  /** No tag is collected exactly when no rule fires. */
  lemma ReasonsOfEmptyIff(h: Hits)
    ensures ReasonsOf(h) == [] <==> !AnyHit(h)
  {
    ReasonsOfMembers(h);
  }

  /** The reasons one allowed amount collects. */
  function AmountReasons(ev: Evidence, amount: nat): seq<Reason> {
    ReasonsOf(HitsFor(ev, amount))
  }

  /** The spelled-out rule only ever fires for 900. */
  lemma SpelledOutOnlyFor900(ev: Evidence, amount: nat)
    ensures HitsFor(ev, amount).spelledOut ==> amount == 900
  {
  }

  /** The rules that fire for each amount of `cands`. */
  function HitTable(ev: Evidence, cands: seq<nat>): (t: seq<Hits>)
    ensures |t| == |cands| && forall k :: 0 <= k < |cands| ==> t[k] == HitsFor(ev, cands[k])
  {
    if cands == [] then [] else [HitsFor(ev, cands[0])] + HitTable(ev, cands[1..])
  }

  /** The index of the first entry of `t[i..]` for which some rule fires (`|t|` if none). */
  function FirstHitFrom(t: seq<Hits>, i: nat): (k: nat)
    requires i <= |t|
    ensures i <= k <= |t|
    ensures forall j :: i <= j < k ==> !AnyHit(t[j])
    ensures k < |t| ==> AnyHit(t[k])
    decreases |t| - i
  {
    if i == |t| || AnyHit(t[i]) then i else FirstHitFrom(t, i + 1)
  }

  /** The first entry is the one at `k` when some rule fires there and at no earlier entry. */
  lemma {:induction false} FirstHitAt(t: seq<Hits>, k: nat)
    requires k < |t| && AnyHit(t[k])
    requires forall j :: 0 <= j < k ==> !AnyHit(t[j])
    ensures FirstHitFrom(t, 0) == k
  {
    var h := FirstHitFrom(t, 0);
    assert !(h < k) && !(k < h);
  }

  /** The tag the payee evidence adds after the amount reasons. */
  function PayeeTags(hit: bool, payee: bool): seq<Reason> {
    if !payee then [MissingPayeeName] else if hit then [PayeeName] else []
  }

  /**
   * `buildPaymentValidationSummary` stated declaratively: the matched amount is the first
   * allowed amount for which a rule fires; its reasons are followed by the payee tag; a match
   * needs both an amount and the payee.
   */
  function Summarize(raw: Option<string>): Summary {
    if raw.None? || raw.value == "" then EmptySummary else SummaryOf(EvidenceOf(raw.value))
  }

  function SummaryOf(ev: Evidence): Summary {
    Decide(AllowedAmounts, HitTable(ev, AllowedAmounts), ev.amounts, ev.payee)
  }

  /**
   * The decision over the amounts `cands` tried in order, where `t[k]` says which rules fire for
   * `cands[k]`: the first amount with a firing rule wins and keeps its reasons, then the payee
   * tag follows.
   */
  function Decide(cands: seq<nat>, t: seq<Hits>, amounts: seq<real>, payee: bool): Summary
    requires |t| == |cands|
  {
    var k := FirstHitFrom(t, 0);
    var hit := k < |t|;
    Summary(
      hit && payee,
      (if hit then ReasonsOf(t[k]) else []) + PayeeTags(hit, payee),
      amounts,
      if hit then Some(cands[k]) else None,
      payee)
  }

  /**
   * The summary matches exactly when an amount won and the payee was detected, and a match
   * ends its reasons with `payee_name`.
   */
  lemma DecideMatched(cands: seq<nat>, t: seq<Hits>, amounts: seq<real>, payee: bool)
    requires |t| == |cands|
    ensures var s := Decide(cands, t, amounts, payee);
      (s.matched <==> s.matchedAmount.Some? && payee)
      && (s.matched ==> |s.reasons| > 0 && s.reasons[|s.reasons| - 1] == PayeeName)
  {
  }

  /**
   * No amount wins exactly when no rule fires for any of them; otherwise the winner is the
   * first amount with a firing rule, and the amount-rule tags are exactly the winner's.
   */
  lemma {:induction false} DecideWinner(cands: seq<nat>, t: seq<Hits>, amounts: seq<real>, payee: bool)
    requires |t| == |cands|
    ensures var s := Decide(cands, t, amounts, payee);
      s.matchedAmount.None? <==> forall k :: 0 <= k < |t| ==> !AnyHit(t[k])
    ensures var s := Decide(cands, t, amounts, payee);
      forall k :: 0 <= k < |t| && AnyHit(t[k]) && (forall j :: 0 <= j < k ==> !AnyHit(t[j])) ==>
        s.matchedAmount == Some(cands[k]) && s.reasons == ReasonsOf(t[k]) + PayeeTags(true, payee)
  {
    forall k | 0 <= k < |t| && AnyHit(t[k]) && (forall j :: 0 <= j < k ==> !AnyHit(t[j]))
      ensures FirstHitFrom(t, 0) == k
    {
      FirstHitAt(t, k);
    }
  }

  /**
   * The reasons are in rank order, each tag at most once; all but the last are amount-rule
   * tags and the last (when there is one) is a payee tag. `missing_payee_name` occurs exactly
   * once when the payee was not detected and not at all otherwise.
   */
  lemma DecideReasonsShape(cands: seq<nat>, t: seq<Hits>, amounts: seq<real>, payee: bool)
    requires |t| == |cands|
    ensures RanksIncrease(Decide(cands, t, amounts, payee).reasons)
    ensures var r := Decide(cands, t, amounts, payee).reasons;
      forall k :: 0 <= k < |r| ==> (IsAmountRule(r[k]) <==> k < |r| - 1)
    ensures multiset(Decide(cands, t, amounts, payee).reasons)[MissingPayeeName] == if payee then 0 else 1
  {
    var k := FirstHitFrom(t, 0);
    var hit := k < |t|;
    var amountTags: seq<Reason> := if hit then ReasonsOf(t[k]) else [];
    if hit {
      ReasonsOfRanked(t[k]);
      ReasonsOfEmptyIff(t[k]);
    }
    PayeeTagAfterAmountTags(amountTags, hit, payee);
    assert Decide(cands, t, amounts, payee).reasons == amountTags + PayeeTags(hit, payee);
  }

  /** Amount-rule tags in rank order, one of them at least when an amount won, then the payee tag. */
  lemma PayeeTagAfterAmountTags(amountTags: seq<Reason>, hit: bool, payee: bool)
    requires RanksIncrease(amountTags)
    requires forall k :: 0 <= k < |amountTags| ==> IsAmountRule(amountTags[k])
    requires hit <==> amountTags != []
    ensures RanksIncrease(amountTags + PayeeTags(hit, payee))
    ensures var r := amountTags + PayeeTags(hit, payee);
      forall k :: 0 <= k < |r| ==> (IsAmountRule(r[k]) <==> k < |r| - 1)
    ensures multiset(amountTags + PayeeTags(hit, payee))[MissingPayeeName] == if payee then 0 else 1
  {
    assert MissingPayeeName !in amountTags;
    assert multiset(amountTags + PayeeTags(hit, payee)) == multiset(amountTags) + multiset(PayeeTags(hit, payee));
  }

  /** The allowed amounts' table: the rules for 900, then the rules for 7900. */
  lemma AllowedHitTable(ev: Evidence)
    ensures HitTable(ev, AllowedAmounts) == [HitsFor(ev, 900), HitsFor(ev, 7900)]
  {
  }

  /** A missing or empty text gives the empty summary without looking any further. */
  lemma SummarizeEmpty(raw: Option<string>)
    requires raw.None? || raw.value == ""
    ensures Summarize(raw) == Summary(false, [], [], None, false)
  {
  }

  /** The payee test reads the lower-cased text; the amounts come from the substituted text. */
  lemma SummarizeEvidence(raw: string)
    requires raw != ""
    ensures Summarize(Some(raw)).payeeNameDetected == Test(PayeePattern, Lower(raw))
    ensures Summarize(Some(raw)).amounts == CandidateAmounts(ReplaceAmbiguousCharacters(Lower(raw)))
  {
  }

  /**
   * Over two amounts tried in order: the first wins whenever a rule fires for it, the second
   * only when none fires for the first, and the winner's tags are the amount-rule tags.
   */
  lemma DecideTwo(c0: nat, c1: nat, h0: Hits, h1: Hits, amounts: seq<real>, payee: bool)
    ensures var s := Decide([c0, c1], [h0, h1], amounts, payee);
      (AnyHit(h0) ==> s.matchedAmount == Some(c0) && s.reasons == ReasonsOf(h0) + PayeeTags(true, payee))
      && (!AnyHit(h0) && AnyHit(h1) ==>
            s.matchedAmount == Some(c1) && s.reasons == ReasonsOf(h1) + PayeeTags(true, payee))
      && (!AnyHit(h0) && !AnyHit(h1) ==> s.matchedAmount.None? && s.reasons == PayeeTags(false, payee))
  {
    var t := [h0, h1];
    if AnyHit(h0) {
      FirstHitAt(t, 0);
    } else if AnyHit(h1) {
      FirstHitAt(t, 1);
    }
  }

  /**
   * For the allowed amounts: 900 wins whenever a rule fires for it and 7900 only when none
   * fires for 900; a match needs a winner and the payee; `numeric_amount` is present exactly
   * when some candidate lies within 0.01 of the winner, and `spelled_out` only when 900 won.
   */
  lemma SummaryOfDecision(ev: Evidence)
    ensures var s := SummaryOf(ev);
      (s.matchedAmount == Some(900) <==> AnyHit(HitsFor(ev, 900)))
      && (s.matchedAmount == Some(7900) <==> !AnyHit(HitsFor(ev, 900)) && AnyHit(HitsFor(ev, 7900)))
      && (s.matchedAmount.None? <==> !AnyHit(HitsFor(ev, 900)) && !AnyHit(HitsFor(ev, 7900)))
    ensures var s := SummaryOf(ev);
      s.matched <==> s.matchedAmount.Some? && s.payeeNameDetected
    ensures var s := SummaryOf(ev);
      NumericAmount in s.reasons <==> s.matchedAmount.Some? && SomeCandidateNear(s.amounts, s.matchedAmount.value)
    ensures SpelledOut in SummaryOf(ev).reasons ==> SummaryOf(ev).matchedAmount == Some(900)
  {
    var h0, h1 := HitsFor(ev, 900), HitsFor(ev, 7900);
    AllowedHitTable(ev);
    DecideTwo(900, 7900, h0, h1, ev.amounts, ev.payee);
    ReasonsOfMembers(h0);
    ReasonsOfMembers(h1);
  }

  /** `SummaryOfDecision` for the evidence of a non-empty text. */
  lemma SummarizeDecision(raw: string)
    requires raw != ""
    ensures var s, ev := Summarize(Some(raw)), EvidenceOf(raw);
      (s.matchedAmount == Some(900) <==> AnyHit(HitsFor(ev, 900)))
      && (s.matchedAmount == Some(7900) <==> !AnyHit(HitsFor(ev, 900)) && AnyHit(HitsFor(ev, 7900)))
      && (s.matchedAmount.None? <==> !AnyHit(HitsFor(ev, 900)) && !AnyHit(HitsFor(ev, 7900)))
    ensures var s := Summarize(Some(raw));
      s.matched <==> s.matchedAmount.Some? && s.payeeNameDetected
    ensures var s := Summarize(Some(raw));
      NumericAmount in s.reasons <==> s.matchedAmount.Some? && SomeCandidateNear(s.amounts, s.matchedAmount.value)
    ensures SpelledOut in Summarize(Some(raw)).reasons ==> Summarize(Some(raw)).matchedAmount == Some(900)
  {
    SummaryOfDecision(EvidenceOf(raw));
  }

  /**
   * For a non-empty text the reasons are in rank order, each at most once, with only the
   * last one a payee tag, and `missing_payee_name` occurs exactly once iff the payee was not
   * detected.
   */
  lemma SummarizeReasonsShape(raw: string)
    requires raw != ""
    ensures RanksIncrease(Summarize(Some(raw)).reasons)
    ensures var r := Summarize(Some(raw)).reasons;
      forall k :: 0 <= k < |r| ==> (IsAmountRule(r[k]) <==> k < |r| - 1)
    ensures var s := Summarize(Some(raw));
      multiset(s.reasons)[MissingPayeeName] == if s.payeeNameDetected then 0 else 1
  {
    SummaryOfReasonsShape(EvidenceOf(raw));
  }

  lemma SummaryOfReasonsShape(ev: Evidence)
    ensures RanksIncrease(SummaryOf(ev).reasons)
    ensures var r := SummaryOf(ev).reasons;
      forall k :: 0 <= k < |r| ==> (IsAmountRule(r[k]) <==> k < |r| - 1)
    ensures multiset(SummaryOf(ev).reasons)[MissingPayeeName] == if ev.payee then 0 else 1
  {
    DecideReasonsShape(AllowedAmounts, HitTable(ev, AllowedAmounts), ev.amounts, ev.payee);
  }

  /** The body of the loop over the allowed amounts: each of the four rule tests pushes its tag. */
  method CollectAmountReasons(ev: Evidence, amount: nat, rawText: string) returns (reasons: seq<Reason>)
    requires ev.normalized == Lower(rawText)
    ensures reasons == AmountReasons(ev, amount)
  {
    ghost var h := HitsFor(ev, amount);
    ReasonsOfUnfold(h);
    reasons := [];
    if Test(CurrencyContextPattern(amount), ev.zeroFriendly) {
      reasons := reasons + [CurrencyContext];
    }
    assert reasons == PushIf([], h.currencyContext, CurrencyContext);
    ghost var after1 := reasons;
    if Test(BareAmountPattern(amount), ev.sanitized) {
      reasons := reasons + [NumericPattern];
    }
    assert reasons == PushIf(after1, h.numericPattern, NumericPattern);
    ghost var after2 := reasons;
    if exists i :: 0 <= i < |ev.amounts| && ApproxEqual(ev.amounts[i], amount as real) {
      reasons := reasons + [NumericAmount];
    }
    assert reasons == PushIf(after2, h.numericAmount, NumericAmount);
    ghost var after3 := reasons;
    if Test(SpelledOutPattern, Lower(rawText)) && amount == 900 {
      reasons := reasons + [SpelledOut];
    }
    assert reasons == PushIf(after3, h.spelledOut, SpelledOut);
  }

  /** The tags of the four rules, pushed one rule after another. */
  lemma ReasonsOfUnfold(h: Hits)
    ensures ReasonsOf(h) == PushIf(PushIf(PushIf(PushIf([], h.currencyContext, CurrencyContext),
      h.numericPattern, NumericPattern), h.numericAmount, NumericAmount), h.spelledOut, SpelledOut)
  {
    var o := Outcomes(h);
    PushFiredStep([], o, 0);
    var r1 := PushIf([], o[0].0, o[0].1);
    PushFiredStep(r1, o, 1);
    var r2 := PushIf(r1, o[1].0, o[1].1);
    PushFiredStep(r2, o, 2);
    var r3 := PushIf(r2, o[2].0, o[2].1);
    PushFiredStep(r3, o, 3);
    assert o[4..] == [];
  }

  /** Pushing from the `i`-th outcome on is pushing that one, then the ones after it. */
  lemma PushFiredStep(reasons: seq<Reason>, o: seq<(bool, Reason)>, i: nat)
    requires i < |o|
    ensures PushFired(reasons, o[i..]) == PushFired(PushIf(reasons, o[i].0, o[i].1), o[i + 1..])
  {
    assert o[i..][1..] == o[i + 1..];
  }

  /**
   * `buildPaymentValidationSummary`: the derived texts, the payee test and the candidate
   * amounts, then the decision over the allowed amounts.
   */
  method BuildPaymentValidationSummary(raw: Option<string>) returns (summary: Summary)
    ensures summary == Summarize(raw)
  {
    summary := EmptySummary;
    if raw.None? || raw.value == "" {
      return;
    }
    var normalized := NormalizeText(raw);
    var zeroFriendly := ReplaceAmbiguousCharacters(normalized);
    var sanitized := RemoveChars(zeroFriendly, {',', Rupee});
    var payeeNameDetected := Test(PayeePattern, normalized);
    var amounts := ExtractCandidateAmounts(zeroFriendly);
    var ev := Evidence(normalized, zeroFriendly, sanitized, amounts, payeeNameDetected);
    assert ev == EvidenceOf(raw.value);
    summary := DecideOverAllowedAmounts(ev, raw.value);
  }

  /**
   * The `for ... break` loop over the allowed amounts and the final payee check, on a summary
   * that already holds the payee flag and the candidate amounts.
   */
  method DecideOverAllowedAmounts(ev: Evidence, rawText: string) returns (summary: Summary)
    requires ev.normalized == Lower(rawText)
    ensures summary == SummaryOf(ev)
  {
    summary := Summary(false, [], ev.amounts, None, ev.payee);
    ghost var t := HitTable(ev, AllowedAmounts);
    ghost var hitAt := |AllowedAmounts|;
    for k := 0 to |AllowedAmounts|
      invariant summary == Summary(false, [], ev.amounts, None, ev.payee)
      invariant forall j :: 0 <= j < k ==> !AnyHit(t[j])
      invariant hitAt == |AllowedAmounts|
    {
      var amount := AllowedAmounts[k];
      var reasons := CollectAmountReasons(ev, amount, rawText);
      ReasonsOfEmptyIff(t[k]);
      if |reasons| > 0 {
        summary := summary.(matchedAmount := Some(amount));
        if ev.payee {
          summary := summary.(matched := true, reasons := reasons + [PayeeName]);
        } else {
          summary := summary.(matched := false, reasons := reasons + [MissingPayeeName]);
        }
        FirstHitAt(t, k);
        hitAt := k;
        break;
      }
    }

    if !summary.matched && !ev.payee {
      if MissingPayeeName !in summary.reasons {
        summary := summary.(reasons := summary.reasons + [MissingPayeeName]);
      }
    }
    SummaryOfCases(ev, t, hitAt);
    if hitAt < |t| {
      assert summary.reasons == ReasonsOf(t[hitAt]) + PayeeTags(true, ev.payee);
    } else {
      assert summary.reasons == PayeeTags(false, ev.payee);
    }
  }

  /** `SummaryOf` once the index of the first amount with a firing rule is known. */
  lemma SummaryOfCases(ev: Evidence, t: seq<Hits>, k: nat)
    requires t == HitTable(ev, AllowedAmounts) && k == FirstHitFrom(t, 0)
    ensures k < |t| ==> (SummaryOf(ev) ==
      Summary(ev.payee, ReasonsOf(t[k]) + PayeeTags(true, ev.payee), ev.amounts, Some(AllowedAmounts[k]), ev.payee))
    ensures k == |t| ==> (SummaryOf(ev) == Summary(false, PayeeTags(false, ev.payee), ev.amounts, None, ev.payee))
  {
    assert SummaryOf(ev) == Decide(AllowedAmounts, t, ev.amounts, ev.payee);
  }

  /** `paymentLooksValid` of the library: the summary's `matched` flag. */
  method PaymentLooksValid(raw: Option<string>) returns (valid: bool)
    ensures valid == Summarize(raw).matched
  {
    var summary := BuildPaymentValidationSummary(raw);
    valid := summary.matched;
  }
}
