/**
 * Conversion of an iCalendar RRULE property (section 3.3.10 of RFC 5545), as the
 * icalendar package hands it over, into the frequency and keyword arguments of a
 * dateutil `rrule`.
 */
module Rrule {
  import opened Wrappers
  import opened DateTime

  /** One element of a recurrence property: a token, a number, or a date-time (UNTIL). */
  datatype Atom = Text(text: string) | Number(n: int) | Stamp(t: Instant)

  /** A property of the parsed rule; icalendar keeps most of them as lists. */
  datatype PropValue = Scalar(atom: Atom) | Items(items: seq<Atom>)

  /** The parsed rule: lower-case property name to value. */
  type RecurBag = map<string, PropValue>

  /** dateutil's frequency constants. */
  datatype Freq = Yearly | Monthly | Weekly | Daily | Hourly | Minutely | Secondly

  /** `FREQ_MAP`: the only frequency tokens the conversion accepts. */
  const FreqMap: map<string, Freq> :=
    map["HOURLY" := Hourly, "DAILY" := Daily, "MONTHLY" := Monthly, "YEARLY" := Yearly]

  /** The twelve keyword arguments passed on to dateutil, in the order they are read. */
  const RuleKeys: seq<string> :=
    ["wkst", "until", "bysetpos", "interval", "bymonth", "bymonthday",
     "byyearday", "byweekno", "byweekday", "byhour", "byminute", "bysecond"]

  /** Keyword arguments; `None` is Python's `None`. */
  type Args = map<string, Option<Atom>>

  /**
   * The exceptions the conversion can raise: `KeyError` for a missing "freq"
   * property or an unknown frequency token, `IndexError` for indexing an empty
   * list or string, `TypeError` for indexing a value that is not a sequence.
   */
  datatype ConvertError =
    | MissingKey(name: string)
    | UnknownFreq(token: Atom)
    | IndexOutOfRange(name: string)
    | NotSubscriptable(name: string)

  /** `rrule['freq'][0]`: the first element of the list, or the first character of a string. */
  function FreqToken(bag: RecurBag): (r: Result<Atom, ConvertError>)
  {
    if "freq" !in bag then Err(MissingKey("freq"))
    else match bag["freq"]
      case Items(xs) => if |xs| == 0 then Err(IndexOutOfRange("freq")) else Ok(xs[0])
      case Scalar(Text(s)) => if |s| == 0 then Err(IndexOutOfRange("freq")) else Ok(Text([s[0]]))
      case Scalar(_) => Err(NotSubscriptable("freq"))
  }

  /** `FREQ_MAP[token]`. */
  function LookupFreq(token: Atom): (r: Result<Freq, ConvertError>)
  {
    if token.Text? && token.text in FreqMap then Ok(FreqMap[token.text]) else Err(UnknownFreq(token))
  }

  /** The inner `tweak`: a list becomes its first element, anything else passes through. */
  function Tweak(bag: RecurBag, key: string): (r: Result<Option<Atom>, ConvertError>)
  {
    if key !in bag then Ok(None)
    else match bag[key]
      case Scalar(a) => Ok(Some(a))
      case Items(xs) => if |xs| == 0 then Err(IndexOutOfRange(key)) else Ok(Some(xs[0]))
  }

  /** The value `tweak` gives a key when it does not raise. */
  predicate ArgOf(bag: RecurBag, key: string, v: Option<Atom>)
  {
    if key !in bag then v == None
    else match bag[key]
      case Scalar(a) => v == Some(a)
      case Items(xs) => |xs| > 0 && v == Some(xs[0])
  }

  /** A key whose value is an empty list, on which `tweak` raises. */
  predicate EmptyList(bag: RecurBag, key: string)
  {
    key in bag && bag[key] == Items([])
  }

  /** `dict((key, tweak(rrule, key)) for key in keys)`, evaluated key by key. */
  function ConvertArgs(bag: RecurBag, keys: seq<string>): (r: Result<Args, ConvertError>)
    ensures r.Ok? <==> forall k :: k in keys ==> !EmptyList(bag, k)
    ensures r.Ok? ==> r.value.Keys == set k | k in keys
    ensures r.Ok? ==> forall k :: k in keys ==> ArgOf(bag, k, r.value[k])
    ensures r.Err? ==> exists i :: (0 <= i < |keys| && EmptyList(bag, keys[i])
      && r.error == IndexOutOfRange(keys[i])
      && forall j :: 0 <= j < i ==> !EmptyList(bag, keys[j]))
    decreases |keys|
  {
    if keys == [] then Ok(map[])
    else match Tweak(bag, keys[0])
      case Err(e) =>
        assert EmptyList(bag, keys[0]) && keys[0] in keys;
        Err(e)
      case Ok(v) =>
        match ConvertArgs(bag, keys[1..])
        case Err(e) =>
          assert forall j :: 1 <= j < |keys| ==> keys[j] == keys[1..][j - 1];
          Err(e)
        case Ok(rest) =>
          assert forall k :: k in keys ==> k == keys[0] || k in keys[1..];
          Ok(rest[keys[0] := v])
  }

  /** `convert_rrule`: the dateutil frequency and the twelve keyword arguments. */
  function ConvertRrule(bag: RecurBag): (r: Result<(Freq, Args), ConvertError>)
  {
    match FreqToken(bag)
    case Err(e) => Err(e)
    case Ok(token) =>
      match LookupFreq(token)
      case Err(e) => Err(e)
      case Ok(f) =>
        match ConvertArgs(bag, RuleKeys)
        case Err(e) => Err(e)
        case Ok(args) => Ok((f, args))
  }

  /** The dateutil rule that the calendar reader builds from a converted RRULE and DTSTART. */
  datatype DateutilRule = DateutilRule(freq: Freq, args: Args, dtstart: Instant)

  /** What `parse_ics` does with an RRULE: convert it, add `dtstart`, construct the dateutil rule. */
  function MakeRule(bag: RecurBag, dtstart: Instant): (r: Result<DateutilRule, ConvertError>)
  {
    match ConvertRrule(bag)
    case Err(e) => Err(e)
    case Ok((f, args)) => Ok(DateutilRule(f, args, dtstart))
  }

  /** The frequency token is accepted only when it is one of the four keys of `FREQ_MAP`. */
  predicate KnownFreq(bag: RecurBag)
  {
    "freq" in bag && bag["freq"].Items? && |bag["freq"].items| > 0
    && bag["freq"].items[0].Text? && bag["freq"].items[0].text in FreqMap
  }

  /**
   * Conversion succeeds exactly when the first "freq" element is HOURLY, DAILY,
   * MONTHLY or YEARLY and none of the twelve keys holds an empty list; the
   * frequency is then `FREQ_MAP` of that token and the arguments have exactly
   * the twelve keys, lists replaced by their first element, scalars passed
   * through, missing keys `None`.
   */
  lemma ConvertRruleMeaning(bag: RecurBag)
    ensures ConvertRrule(bag).Ok? <==> KnownFreq(bag) && forall k :: k in RuleKeys ==> !EmptyList(bag, k)
    ensures ConvertRrule(bag).Ok? ==>
      var (f, args) := ConvertRrule(bag).value;
      && f == FreqMap[bag["freq"].items[0].text]
      && args.Keys == set k | k in RuleKeys
      && forall k :: k in RuleKeys ==> ArgOf(bag, k, args[k])
  {
    if "freq" in bag && bag["freq"].Scalar? && bag["freq"].atom.Text? && |bag["freq"].atom.text| > 0 {
      var c := bag["freq"].atom.text[0];
      assert [c] !in FreqMap by {
        assert forall t :: t in FreqMap ==> |t| >= 5;
      }
    }
  }

  /**
   * The reader's rule exists exactly when the RRULE converts. It then has the
   * converted frequency and arguments and starts at the event's DTSTART;
   * otherwise the conversion's exception propagates unchanged.
   */
  lemma MakeRuleMeaning(bag: RecurBag, dtstart: Instant)
    ensures MakeRule(bag, dtstart).Ok? <==> KnownFreq(bag) && forall k :: k in RuleKeys ==> !EmptyList(bag, k)
    ensures MakeRule(bag, dtstart).Ok? ==>
      var rule := MakeRule(bag, dtstart).value;
      && rule.dtstart == dtstart
      && rule.freq == FreqMap[bag["freq"].items[0].text]
      && rule.args.Keys == set k | k in RuleKeys
      && forall k :: k in RuleKeys ==> ArgOf(bag, k, rule.args[k])
    ensures MakeRule(bag, dtstart).Err? ==> ConvertRrule(bag) == Err(MakeRule(bag, dtstart).error)
  {
    ConvertRruleMeaning(bag);
  }

  /** A frequency token outside `FREQ_MAP` raises `KeyError` naming that token. */
  lemma UnknownFreqRejected(bag: RecurBag, token: string)
    requires "freq" in bag && bag["freq"].Items? && |bag["freq"].items| > 0
    requires bag["freq"].items[0] == Text(token) && token !in FreqMap
    ensures ConvertRrule(bag) == Err(UnknownFreq(Text(token)))
  {
  }

  /** Only the first element of the "freq" list, and only the twelve keys, are consulted. */
  lemma ConvertConsultsOnly(b1: RecurBag, b2: RecurBag)
    requires FreqToken(b1) == FreqToken(b2)
    requires forall k :: k in RuleKeys ==> (k in b1 <==> k in b2) && (k in b1 ==> b1[k] == b2[k])
    ensures ConvertRrule(b1) == ConvertRrule(b2)
  {
    ConvertKeysAgree(b1, b2, RuleKeys);
  }

  lemma {:induction false} ConvertKeysAgree(b1: RecurBag, b2: RecurBag, keys: seq<string>)
    requires forall k :: k in keys ==> (k in b1 <==> k in b2) && (k in b1 ==> b1[k] == b2[k])
    ensures ConvertArgs(b1, keys) == ConvertArgs(b2, keys)
    decreases |keys|
  {
    if keys != [] {
      assert Tweak(b1, keys[0]) == Tweak(b2, keys[0]);
      ConvertKeysAgree(b1, b2, keys[1..]);
    }
  }

  /** RFC 5545's COUNT and BYDAY are not among the keys read, so they never reach dateutil. */
  lemma CountAndByDayDropped(bag: RecurBag)
    ensures ConvertRrule(bag) == ConvertRrule(bag - {"count", "byday"})
  {
    var b2 := bag - {"count", "byday"};
    assert FreqToken(bag) == FreqToken(b2);
    ConvertConsultsOnly(bag, b2);
  }
}
