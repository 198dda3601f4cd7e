/** Trip criteria in the URL: the printer, the parser, and what survives a round trip through them. */
module SearchParams {
  import opened Results
  import opened Text

  datatype Search = Search(
    pickupDate: string, returnDate: string, pickupTime: string, returnTime: string,
    pickupLocation: string, returnLocation: string, extras: seq<string>, hotelDelivery: bool)

  /** Query parameters in order; a key may repeat, and a lookup takes the first. */
  type Params = seq<(string, string)>

  function Get(params: Params, key: string): Option<string> {
    if params == [] then None
    else if params[0].0 == key then Some(params[0].1)
    else Get(params[1..], key)
  }

  const INSURANCE_FULL := "insurance_full"
  const INSURANCE_BASIC := "insurance_basic"

  // ---------- Times ----------

  /** dd:dd */
  predicate TwoDigitTime(s: string) {
    |s| == 5 && IsDigit(s[0]) && IsDigit(s[1]) && s[2] == ':' && IsDigit(s[3]) && IsDigit(s[4])
  }

  /** d:dd */
  predicate OneDigitTime(s: string) {
    |s| == 4 && IsDigit(s[0]) && s[1] == ':' && IsDigit(s[2]) && IsDigit(s[3])
  }

  function ToHHMM(value: Option<string>): Option<string> {
    if value.None? || value.value == "" then None
    else
      var input := Trim(value.value);
      if input == "" then None
      else if TwoDigitTime(input) then Some(input)
      else if !OneDigitTime(input) then None
      else
        var hour := DigitValue(input[0]);
        var minute := 10 * DigitValue(input[2]) + DigitValue(input[3]);
        if hour > 23 || minute > 59 then None
        else Some(PadTwo(hour) + ":" + PadTwo(minute))
  }

  predicate IsClockTime(s: string) {
    && TwoDigitTime(s) && 10 * DigitValue(s[0]) + DigitValue(s[1]) <= 23
    && 10 * DigitValue(s[3]) + DigitValue(s[4]) <= 59
  }

  lemma TwoDigitTimeIsTrimmed(s: string)
    requires TwoDigitTime(s)
    ensures Trim(s) == s
  {
    TrimOfTrimmed(s);
  }

  /** A time is left as it stands exactly when it already has the form dd:dd. */
  lemma CanonicalTimes(s: string)
    ensures ToHHMM(Some(s)) == Some(s) <==> TwoDigitTime(s)
  {
    if TwoDigitTime(s) {
      TwoDigitTimeIsTrimmed(s);
    } else {
      ResultIsCanonical(Some(s));
    }
  }

  lemma ResultIsCanonical(value: Option<string>)
    ensures ToHHMM(value).Some? ==> TwoDigitTime(ToHHMM(value).value)
  {
    PaddedDigits();
  }

  lemma PaddedDigits()
    ensures forall n: nat :: n < 100 ==> PadTwo(n) == [DigitChar(n / 10), DigitChar(n % 10)]
  {
    forall n: nat | n < 100 ensures PadTwo(n) == [DigitChar(n / 10), DigitChar(n % 10)] {
      PadTwoDigits(n);
    }
  }

  /** Normalizing twice is normalizing once. */
  lemma ToHHMMIdempotent(value: Option<string>)
    ensures ToHHMM(value).Some? ==> ToHHMM(ToHHMM(value)) == ToHHMM(value)
  {
    ResultIsCanonical(value);
    if ToHHMM(value).Some? { CanonicalTimes(ToHHMM(value).value); }
  }

  /**
   * The result is a time of day exactly when the input, trimmed, is not already dd:dd with an hour or minute
   * out of range: that form is let through unchecked, the one-digit form is checked.
   */
  lemma TimesInRange(value: string)
    requires ToHHMM(Some(value)).Some?
    ensures IsClockTime(ToHHMM(Some(value)).value) <==> (TwoDigitTime(Trim(value)) ==> IsClockTime(Trim(value)))
  {
    PaddedDigits();
  }

  /** So an hour of 99 is accepted in the two-digit form, while 9:99 is refused. */
  lemma OutOfRangeTimeAccepted()
    ensures ToHHMM(Some("99:99")) == Some("99:99") && !IsClockTime("99:99") && ToHHMM(Some("9:99")) == None
  {
    CanonicalTimes("99:99");
    assert Trimmed("9:99");
    TrimOfTrimmed("9:99");
  }

  // ---------- Extras ----------

  function TrimAll(parts: seq<string>): (r: seq<string>)
    ensures |r| == |parts| && forall i :: 0 <= i < |r| ==> r[i] == Trim(parts[i])
  {
    seq(|parts|, i requires 0 <= i < |parts| => Trim(parts[i]))
  }

  function NonEmpty(parts: seq<string>): seq<string> {
    if parts == [] then []
    else (if parts[0] == "" then [] else [parts[0]]) + NonEmpty(parts[1..])
  }

  function ParseExtras(value: Option<string>): seq<string> {
    if value.None? || value.value == "" then [] else NonEmpty(TrimAll(Split(value.value, ',')))
  }

  /** First occurrences, in order. */
  function Unique(codes: seq<string>): seq<string> {
    if codes == [] then []
    else
      var n := |codes| - 1;
      Unique(codes[..n]) + (if codes[n] in codes[..n] then [] else [codes[n]])
  }

  function Without(codes: seq<string>, code: string): seq<string> {
    if codes == [] then []
    else (if codes[0] == code then [] else [codes[0]]) + Without(codes[1..], code)
  }

  function NormalizeExtras(extras: seq<string>): seq<string> {
    var unique := Unique(NonEmpty(extras));
    if INSURANCE_FULL in unique && INSURANCE_BASIC in unique then Without(unique, INSURANCE_BASIC) else unique
  }

  predicate NoRepeats(codes: seq<string>) {
    forall i, j :: 0 <= i < j < |codes| ==> codes[i] != codes[j]
  }

  /** Where a code first stands. */
  function First(codes: seq<string>, code: string): (k: nat)
    requires code in codes
    ensures k < |codes| && codes[k] == code && code !in codes[..k]
  {
    if codes[0] == code then 0
    else
      assert code in codes[1..];
      var k := First(codes[1..], code);
      assert codes[..k + 1] == [codes[0]] + codes[1..][..k];
      k + 1
  }

  /** The order of a selection: its codes stand in the order of their first occurrence in the original. */
  ghost predicate InOrderOf(codes: seq<string>, original: seq<string>) {
    && (forall i :: 0 <= i < |codes| ==> codes[i] in original)
    && forall i, j :: 0 <= i < j < |codes| ==> First(original, codes[i]) < First(original, codes[j])
  }

  lemma {:induction false} NonEmptyContents(parts: seq<string>)
    ensures forall c :: c in NonEmpty(parts) <==> c in parts && c != ""
  {
    if parts != [] { NonEmptyContents(parts[1..]); }
  }

  lemma {:induction false} WithoutContents(codes: seq<string>, code: string)
    ensures forall c :: c in Without(codes, code) <==> c in codes && c != code
  {
    if codes != [] { WithoutContents(codes[1..], code); }
  }

  lemma {:induction false} UniqueContents(codes: seq<string>)
    ensures forall c :: c in Unique(codes) <==> c in codes
  {
    if codes != [] {
      var n := |codes| - 1;
      UniqueContents(codes[..n]);
      assert codes == codes[..n] + [codes[n]];
    }
  }

  lemma {:induction false} FirstIs(codes: seq<string>, code: string, k: nat)
    requires k < |codes| && codes[k] == code && code !in codes[..k]
    ensures code in codes && First(codes, code) == k
  {
    if k > 0 {
      assert codes[..k][0] == codes[0] && codes[..k][1..] == codes[1..][..k - 1];
      FirstIs(codes[1..], code, k - 1);
    }
  }

  lemma FirstInPrefix(a: seq<string>, b: seq<string>, code: string)
    requires code in a
    ensures code in a + b && First(a + b, code) == First(a, code)
  {
    var k := First(a, code);
    assert (a + b)[..k] == a[..k];
    FirstIs(a + b, code, k);
  }

  lemma {:induction false} UniqueInOrder(codes: seq<string>)
    ensures InOrderOf(Unique(codes), codes)
  {
    if codes != [] {
      var n := |codes| - 1;
      var front, u := codes[..n], Unique(codes[..n]);
      UniqueInOrder(front);
      UniqueContents(front);
      assert codes == front + [codes[n]];
      forall i | 0 <= i < |u| ensures u[i] in codes && First(codes, u[i]) == First(front, u[i]) < n {
        FirstInPrefix(front, [codes[n]], u[i]);
      }
      if codes[n] !in front {
        FirstIs(codes, codes[n], n);
      }
    }
  }

  /** Dropping codes, or changing to a longer original with the same first occurrences, keeps the order. */
  lemma HeadComesFirst(codes: seq<string>, c: string, original: seq<string>)
    requires InOrderOf(codes, original) && codes != [] && c in codes[1..]
    ensures c in original && First(original, codes[0]) < First(original, c)
  {
    var k :| 0 <= k < |codes| - 1 && codes[1..][k] == c;
    assert codes[k + 1] == c;
  }

  lemma {:induction false} WithoutInOrder(codes: seq<string>, code: string, original: seq<string>)
    requires InOrderOf(codes, original)
    ensures InOrderOf(Without(codes, code), original)
  {
    if codes != [] {
      var rest := Without(codes[1..], code);
      WithoutInOrder(codes[1..], code, original);
      WithoutContents(codes[1..], code);
      forall c | c in rest ensures c in original && First(original, codes[0]) < First(original, c) {
        HeadComesFirst(codes, c, original);
      }
    }
  }

  lemma {:induction false} NonEmptyFirst(parts: seq<string>, a: string, b: string)
    requires a in NonEmpty(parts) && b in NonEmpty(parts) && First(NonEmpty(parts), a) < First(NonEmpty(parts), b)
    ensures a in parts && b in parts && First(parts, a) < First(parts, b)
  {
    NonEmptyContents(parts);
    NonEmptyContents(parts[1..]);
    var ne := NonEmpty(parts);
    if parts[0] == "" {
      assert ne == NonEmpty(parts[1..]);
      NonEmptyFirst(parts[1..], a, b);
    } else {
      assert ne[0] == parts[0] && ne[1..] == NonEmpty(parts[1..]);
      if parts[0] != a && parts[0] != b {
        NonEmptyFirst(parts[1..], a, b);
      }
    }
  }

  lemma InOrderHasNoRepeats(codes: seq<string>, original: seq<string>)
    requires InOrderOf(codes, original)
    ensures NoRepeats(codes)
  {
  }

  /**
   * What normalizing means: exactly the non-empty codes selected, each once, in the order first selected,
   * the basic insurance only where the full one was not selected.
   */
  lemma NormalizeMeans(extras: seq<string>)
    ensures var r := NormalizeExtras(extras);
            && (forall c :: c in r <==> c in extras && c != "" && (c == INSURANCE_BASIC ==> INSURANCE_FULL !in extras))
            && NoRepeats(r) && InOrderOf(r, extras)
            && !(INSURANCE_FULL in r && INSURANCE_BASIC in r)
  {
    var some := NonEmpty(extras);
    var unique := Unique(some);
    NonEmptyContents(extras);
    UniqueContents(some);
    WithoutContents(unique, INSURANCE_BASIC);
    UniqueInOrder(some);
    forall i, j | 0 <= i < j < |unique| ensures First(extras, unique[i]) < First(extras, unique[j]) {
      NonEmptyFirst(extras, unique[i], unique[j]);
    }
    assert InOrderOf(unique, extras);
    WithoutInOrder(unique, INSURANCE_BASIC, extras);
    InOrderHasNoRepeats(NormalizeExtras(extras), extras);
  }

  /** Codes with no empty one, no repeats and not both insurances. */
  predicate Normal(codes: seq<string>) {
    "" !in codes && NoRepeats(codes) && !(INSURANCE_FULL in codes && INSURANCE_BASIC in codes)
  }

  lemma {:induction false} NonEmptyKeeps(codes: seq<string>)
    requires "" !in codes
    ensures NonEmpty(codes) == codes
  {
    if codes != [] {
      NonEmptyKeeps(codes[1..]);
      assert codes == [codes[0]] + codes[1..];
    }
  }

  lemma {:induction false} UniqueKeeps(codes: seq<string>)
    requires NoRepeats(codes)
    ensures Unique(codes) == codes
  {
    if codes != [] {
      UniqueKeeps(codes[..|codes| - 1]);
      assert codes == codes[..|codes| - 1] + [codes[|codes| - 1]];
    }
  }

  /** Normalizing changes nothing exactly on the lists that are normal, and its results are. */
  lemma NormalizeFixpoints(codes: seq<string>)
    ensures NormalizeExtras(codes) == codes <==> Normal(codes)
    ensures NormalizeExtras(NormalizeExtras(codes)) == NormalizeExtras(codes)
  {
    NormalizeMeans(codes);
    NormalOnesStay(NormalizeExtras(codes));
    if Normal(codes) { NormalOnesStay(codes); }
  }

  lemma NormalOnesStay(codes: seq<string>)
    requires Normal(codes)
    ensures NormalizeExtras(codes) == codes
  {
    NonEmptyKeeps(codes);
    UniqueKeeps(codes);
  }

  // ---------- Printing and parsing ----------

  function ToQuery(search: Search): Params {
    var extras := NormalizeExtras(search.extras);
    [ ("pickup-date", search.pickupDate), ("return-date", search.returnDate),
      ("pickup-time", search.pickupTime), ("return-time", search.returnTime),
      ("pickup-location", search.pickupLocation), ("return-location", search.returnLocation) ]
    + (if extras != [] then [("extras", Join(extras, ','))] else [])
    + (if search.hotelDelivery then [("hotelDelivery", "1")] else [])
  }

  predicate Given(value: Option<string>) {
    value.Some? && value.value != ""
  }

  function FromUrl(params: Params): Option<Search> {
    var pickupDate, returnDate := Get(params, "pickup-date"), Get(params, "return-date");
    var pickupTime, returnTime := ToHHMM(Get(params, "pickup-time")), ToHHMM(Get(params, "return-time"));
    var pickupLocation, returnLocation := Get(params, "pickup-location"), Get(params, "return-location");
    if Given(pickupDate) && Given(returnDate) && Given(pickupTime) && Given(returnTime)
       && Given(pickupLocation) && Given(returnLocation) then
      Some(Search(pickupDate.value, returnDate.value, pickupTime.value, returnTime.value,
                  pickupLocation.value, returnLocation.value,
                  NormalizeExtras(ParseExtras(Get(params, "extras"))), Get(params, "hotelDelivery") == Some("1")))
    else None
  }

  /** A code that a comma-separated list can carry. */
  predicate Listable(code: string) {
    code != "" && ',' !in code && Trimmed(code)
  }

  lemma {:induction false} GetAppend(a: Params, b: Params, key: string)
    ensures Get(a + b, key) == if Get(a, key).Some? then Get(a, key) else Get(b, key)
  {
    if a == [] {
      assert a + b == b;
    } else {
      GetAppend(a[1..], b, key);
      assert (a + b)[1..] == a[1..] + b;
    }
  }

  lemma Lookups(search: Search)
    ensures var q := ToQuery(search);
            && Get(q, "pickup-date") == Some(search.pickupDate) && Get(q, "return-date") == Some(search.returnDate)
            && Get(q, "pickup-time") == Some(search.pickupTime) && Get(q, "return-time") == Some(search.returnTime)
            && Get(q, "pickup-location") == Some(search.pickupLocation)
            && Get(q, "return-location") == Some(search.returnLocation)
  {
    var q := ToQuery(search);
    GetAt(q, 0);
    GetAt(q, 1);
    GetAt(q, 2);
    GetAt(q, 3);
    GetAt(q, 4);
    GetAt(q, 5);
  }

  lemma {:induction false} GetAt(q: Params, k: nat)
    requires k < |q| && forall i :: 0 <= i < k ==> q[i].0 != q[k].0
    ensures Get(q, q[k].0) == Some(q[k].1)
  {
    if k > 0 { GetAt(q[1..], k - 1); }
  }

  lemma LookupOptionals(search: Search)
    ensures var q := ToQuery(search);
            var extras := NormalizeExtras(search.extras);
            && Get(q, "extras") == (if extras == [] then None else Some(Join(extras, ',')))
            && Get(q, "hotelDelivery") == (if search.hotelDelivery then Some("1") else None)
  {
    var extras := NormalizeExtras(search.extras);
    var base := ToQuery(search)[..6];
    var list := if extras != [] then [("extras", Join(extras, ','))] else [];
    var hotel := if search.hotelDelivery then [("hotelDelivery", "1")] else [];
    assert ToQuery(search) == (base + list) + hotel;
    forall key | key in {"extras", "hotelDelivery"} ensures Get(base, key) == None {
      GetNone(base, key);
    }
    GetAppend(base, list, "extras");
    GetAppend(base + list, hotel, "extras");
    GetAppend(base, list, "hotelDelivery");
    GetAppend(base + list, hotel, "hotelDelivery");
  }

  lemma {:induction false} GetNone(q: Params, key: string)
    requires forall i :: 0 <= i < |q| ==> q[i].0 != key
    ensures Get(q, key) == None
  {
    if q != [] { GetNone(q[1..], key); }
  }

  /** Every code of a parsed list is listable. */
  lemma ParsedAreListable(value: Option<string>)
    ensures forall c :: c in ParseExtras(value) ==> Listable(c)
  {
    if value.Some? && value.value != "" {
      var parts := Split(value.value, ',');
      var trimmed := TrimAll(parts);
      NonEmptyContents(trimmed);
      PartsAreSeparatorFree(value.value, ',');
      forall c | c in ParseExtras(value) ensures Listable(c) {
        var i :| 0 <= i < |trimmed| && trimmed[i] == c;
        var a, b := TrimResult(parts[i]);
      }
    }
  }

  lemma ParseOfJoined(codes: seq<string>)
    requires codes != [] && forall c :: c in codes ==> Listable(c)
    ensures ParseExtras(Some(Join(codes, ','))) == codes
  {
    assert forall i :: 0 <= i < |codes| ==> Listable(codes[i]);
    SplitJoin(codes, ',');
    assert Split("", ',')[0] == "" && Listable(codes[0]);
    forall i | 0 <= i < |codes| ensures Trim(codes[i]) == codes[i] { TrimOfTrimmed(codes[i]); }
    assert TrimAll(codes) == codes;
    NonEmptyKeeps(codes);
  }

  /** The extras that come back are the normalized ones exactly when every one of those is listable. */
  lemma ExtrasRoundTrip(search: Search)
    ensures var n := NormalizeExtras(search.extras);
            NormalizeExtras(ParseExtras(Get(ToQuery(search), "extras"))) == n <==> forall c :: c in n ==> Listable(c)
  {
    var n := NormalizeExtras(search.extras);
    var value := Get(ToQuery(search), "extras");
    LookupOptionals(search);
    NormalizeFixpoints(search.extras);
    NormalizeMeans(ParseExtras(value));
    ParsedAreListable(value);
    if n != [] && forall c :: c in n ==> Listable(c) {
      ParseOfJoined(n);
    }
  }

  predicate AllGiven(s: Search) {
    && s.pickupDate != "" && s.returnDate != "" && s.pickupTime != "" && s.returnTime != ""
    && s.pickupLocation != "" && s.returnLocation != ""
  }

  /**
   * Printing then parsing gives the search back, extras normalized, exactly when every field is given, both
   * times have the form dd:dd, and every extra that is kept can stand in a comma-separated list.
   */
  lemma ParseInvertsPrint(s: Search)
    ensures FromUrl(ToQuery(s)) == Some(s.(extras := NormalizeExtras(s.extras)))
       <==> AllGiven(s) && TwoDigitTime(s.pickupTime) && TwoDigitTime(s.returnTime)
            && forall c :: c in NormalizeExtras(s.extras) ==> Listable(c)
  {
    Lookups(s);
    LookupOptionals(s);
    ExtrasRoundTrip(s);
    CanonicalTimes(s.pickupTime);
    CanonicalTimes(s.returnTime);
  }

  /** Every URL that parses is stable: printing the result and parsing again gives the same search. */
  lemma ParsePrintParse(params: Params)
    requires FromUrl(params).Some?
    ensures FromUrl(ToQuery(FromUrl(params).value)) == FromUrl(params)
    ensures var extras := FromUrl(params).value.extras; !(INSURANCE_FULL in extras && INSURANCE_BASIC in extras)
  {
    var s := FromUrl(params).value;
    var value := Get(params, "extras");
    ParsedAreListable(value);
    NormalizeMeans(ParseExtras(value));
    NormalizeFixpoints(ParseExtras(value));
    ResultIsCanonical(Get(params, "pickup-time"));
    ResultIsCanonical(Get(params, "return-time"));
    ParseInvertsPrint(s);
  }

  // ---------- What a time means ----------

  /** The numbers on the two sides of the colon. */
  function HourAndMinute(s: string): Option<(nat, nat)> {
    var parts := Split(s, ':');
    if |parts| == 2 && parts[0] != "" && parts[1] != "" && Number(parts[0]).Some? && Number(parts[1]).Some?
    then Some((Number(parts[0]).value, Number(parts[1]).value)) else None
  }

  lemma TwoNumbers(a: string, b: string)
    requires a != "" && b != "" && Number(a).Some? && Number(b).Some?
    ensures HourAndMinute(a + ":" + b) == Some((Number(a).value, Number(b).value))
  {
    NumbersHaveDigits(a);
    NumbersHaveDigits(b);
    SplitWithoutSeparator(b, ':');
    SplitAtFirst(a, b, ':');
  }

  lemma TwoDigitNumber(a: char, b: char)
    requires IsDigit(a) && IsDigit(b)
    ensures Number([a, b]) == Some(10 * DigitValue(a) + DigitValue(b)) && Number([a]) == Some(DigitValue(a))
  {
    assert [a, b][..1] == [a] && [a][..0] == "";
    assert Number([a]) == Some(DigitValue(a)) by { assert Number([a][..0]) == Some(0); }
  }

  lemma TimeParts(s: string)
    requires TwoDigitTime(s) || OneDigitTime(s)
    ensures HourAndMinute(s) == Some(
              if |s| == 5 then (10 * DigitValue(s[0]) + DigitValue(s[1]), 10 * DigitValue(s[3]) + DigitValue(s[4]))
              else (DigitValue(s[0]), 10 * DigitValue(s[2]) + DigitValue(s[3])))
  {
    if |s| == 5 {
      TwoDigitNumber(s[0], s[1]);
      TwoDigitNumber(s[3], s[4]);
      TwoNumbers([s[0], s[1]], [s[3], s[4]]);
      assert s == [s[0], s[1]] + ":" + [s[3], s[4]];
    } else {
      TwoDigitNumber(s[0], s[0]);
      TwoDigitNumber(s[2], s[3]);
      TwoNumbers([s[0]], [s[2], s[3]]);
      assert s == [s[0]] + ":" + [s[2], s[3]];
    }
  }

  lemma PaddedTime(hour: nat, minute: nat)
    requires hour < 100 && minute < 100
    ensures HourAndMinute(PadTwo(hour) + ":" + PadTwo(minute)) == Some((hour, minute))
  {
    NumberOfPadTwo(hour);
    NumberOfPadTwo(minute);
    PadTwoDigits(hour);
    PadTwoDigits(minute);
    TwoNumbers(PadTwo(hour), PadTwo(minute));
  }

  /** A normalized time tells the same hour and minute as its input. */
  lemma TimesKeepTheirMeaning(value: string)
    requires ToHHMM(Some(value)).Some?
    ensures HourAndMinute(ToHHMM(Some(value)).value).Some?
    ensures HourAndMinute(ToHHMM(Some(value)).value) == HourAndMinute(Trim(value))
  {
    var input := Trim(value);
    TimeParts(input);
    if OneDigitTime(input) {
      PaddedTime(DigitValue(input[0]), 10 * DigitValue(input[2]) + DigitValue(input[3]));
    }
  }

  predicate MinuteBelowSixty(s: string) {
    HourAndMinute(s).Some? && HourAndMinute(s).value.1 <= 59
  }

  /** Which inputs are times at all: dd:dd in any range, d:dd with a minute below sixty, around them blanks. */
  lemma TimesAccepted(value: string)
    ensures ToHHMM(Some(value)).Some? <==>
              TwoDigitTime(Trim(value)) || (OneDigitTime(Trim(value)) && MinuteBelowSixty(Trim(value)))
  {
    TrimOfBlank(value);
    if OneDigitTime(Trim(value)) { TimeParts(Trim(value)); }
  }

  /** The parser reads each field under its own name. */
  lemma FieldsByName(params: Params)
    requires FromUrl(params).Some?
    ensures var s := FromUrl(params).value;
            && Get(params, "pickup-date") == Some(s.pickupDate) && Get(params, "return-date") == Some(s.returnDate)
            && Get(params, "pickup-location") == Some(s.pickupLocation) && Get(params, "return-location") == Some(s.returnLocation)
            && ToHHMM(Get(params, "pickup-time")) == Some(s.pickupTime) && ToHHMM(Get(params, "return-time")) == Some(s.returnTime)
            && (s.hotelDelivery <==> Get(params, "hotelDelivery") == Some("1"))
  {
  }
}
