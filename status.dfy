/** Tuner status: `hdhomerun_config <id> get /tuner<N>/status` prints one line of
    `key=value` tokens such as `channel=auto:650000000 lock=8vsb ss=85 snq=92 seq=100
    bps=12345678 pps=123`. The gateway turns it into an object: every token becomes a
    property, the five signal figures become numbers, and `channel` and `lock` get
    defaults. */
module Status {
  import opened Text

  /** A property value of the JavaScript object being built. */
  datatype Value = Undefined | Str(text: string) | Num(number: real)

  /** The object, keyed by property name (property order is not modelled). */
  type StatusObject = map<string, Value>

  /** The keys whose values are converted to numbers. */
  const NumericKeys: seq<string> := ["ss", "snq", "seq", "bps", "pps"]

  /** JavaScript truthiness of a value (a converted number is never NaN). */
  predicate Truthy(v: Value) {
    match v
    case Undefined => false
    case Str(t) => t != ""
    case Num(x) => x != 0.0
  }

  // ----- numbers -----

  predicate IsNumericChar(c: char) { IsDigit(c) || c == '.' || c == '-' }

  /** `text.replace(/[^0-9.-]/g, '')`: the digits, dots and minus signs of `s`, in order. */
  function StripNonNumeric(s: string): (r: string)
    ensures |r| <= |s|
    ensures forall k | 0 <= k < |r| :: IsNumericChar(r[k]) && r[k] in s
    ensures (forall k | 0 <= k < |s| :: IsNumericChar(s[k])) ==> r == s
  {
    if s == [] then []
    else
      var rest := StripNonNumeric(s[1..]);
      assert forall c | c in s[1..] :: c in s;
      if IsNumericChar(s[0]) then [s[0]] + rest else rest
  }

  /** Stripping works character by character: the stripped text of `s + t` is
      that of `s` followed by that of `t`. */
  lemma {:induction false} StripNonNumericConcat(s: string, t: string)
    ensures StripNonNumeric(s + t) == StripNonNumeric(s) + StripNonNumeric(t)
    decreases |s|
  {
    if s == [] {
      assert s + t == t;
    } else {
      assert (s + t)[0] == s[0] && (s + t)[1..] == s[1..] + t;
      StripNonNumericConcat(s[1..], t);
    }
  }

  /** A single character is kept exactly when it is a digit, `.` or `-`. */
  lemma StripNonNumericChar(c: char)
    ensures StripNonNumeric([c]) == if IsNumericChar(c) then [c] else []
  {
    assert [c][1..] == [];
  }

  function Pow10(n: nat): (p: nat)
    ensures p >= 1
  {
    if n == 0 then 1 else 10 * Pow10(n - 1)
  }

  /** An unsigned decimal literal `D+`, `D+.D*` or `.D+` and its exact value;
      None for anything else over the alphabet [0-9.-]. Its value is never
      negative. */
  function UnsignedDecimal(s: string): (r: Option<real>)
    ensures r.Some? ==> r.value >= 0.0
  {
    if '.' in s then
      var p := IndexOf(s, '.');
      var whole, frac := s[..p], s[p + 1..];
      if AllDigits(whole) && AllDigits(frac) && (whole != [] || frac != []) then
        Some(DigitsValue(whole) as real + DigitsValue(frac) as real / Pow10(|frac|) as real)
      else None
    else if s != [] && AllDigits(s) then Some(DigitsValue(s) as real)
    else None
  }

  /** `Number(s)` for a string over [0-9.-]: the empty string is 0, an optional
      leading minus sign negates an unsigned decimal literal, and anything else is
      NaN (None). */
  function NumberOf(s: string): Option<real> {
    if s == [] then Some(0.0)
    else if s[0] == '-' then
      match UnsignedDecimal(s[1..])
      case Some(v) => Some(-v)
      case None => None
    else UnsignedDecimal(s)
  }

  /** `Number(String(v).replace(/[^0-9.-]/g, '')) || 0`: NaN and zero become 0. A
      value without a minus sign never reads as negative: the source keeps `-`, so
      a negative figure is possible only when the device prints one. */
  function NumberOr0(text: string): (v: real)
    ensures '-' !in text ==> v >= 0.0
  {
    var s := StripNonNumeric(text);
    assert '-' !in text ==> s == [] || s[0] != '-';
    match NumberOf(s)
    case Some(v) => v
    case None => 0.0
  }

  /** A figure printed as plain digits is read as its decimal value. */
  lemma NumberOfDigits(text: string)
    requires text != [] && AllDigits(text)
    ensures NumberOr0(text) == DigitsValue(text) as real
  {
    assert StripNonNumeric(text) == text;
    assert text[0] != '-';
    assert '.' !in text;
  }

  /** Unit suffixes are dropped: `85%` reads as 85. */
  lemma NumberOfPercent()
    ensures NumberOr0("85%") == 85.0
  {
    assert StripNonNumeric("85%") == "85";
    NumberOfDigits("85");
    assert DigitsValue("85") == 85 by {
      assert "85"[..1] == "8";
    }
  }

  lemma NoDigitNotAllDigits(s: string)
    requires s != [] && forall k | 0 <= k < |s| :: !IsDigit(s[k])
    ensures !AllDigits(s)
  {
    assert !IsDigit(s[0]);
  }

  /** A value without any digit reads as 0, whatever else it holds. */
  lemma NumberWithoutDigits(text: string)
    requires forall k | 0 <= k < |text| :: !IsDigit(text[k])
    ensures NumberOr0(text) == 0.0
  {
    var s := StripNonNumeric(text);
    assert forall k | 0 <= k < |s| :: !IsDigit(s[k]);
    var u := if s != [] && s[0] == '-' then s[1..] else s;
    assert forall k | 0 <= k < |u| :: !IsDigit(u[k]);
    if '.' in u {
      var p := IndexOf(u, '.');
      var whole, frac := u[..p], u[p + 1..];
      if whole != [] {
        NoDigitNotAllDigits(whole);
      }
      if frac != [] {
        NoDigitNotAllDigits(frac);
      }
    } else if u != [] {
      NoDigitNotAllDigits(u);
    }
  }

  // ----- tokens -----

  /** `output.trim().split(/\s+/)`: the whitespace-separated words, or the single
      empty token when the output is blank. */
  function Tokens(output: string): (tokens: seq<string>)
    ensures |tokens| >= 1
    ensures Trim(output) == [] ==> tokens == [""]
    ensures Trim(output) != [] ==> forall k | 0 <= k < |tokens| :: tokens[k] != []
    ensures forall k | 0 <= k < |tokens| :: NoSpace(tokens[k])
  {
    var t := Trim(output);
    assert t != [] ==> forall k | 0 <= k < |SplitWs(t)| :: SplitWs(t)[k] != [] by {
      if t != [] {
        SplitWsWords(t);
      }
    }
    SplitWs(t)
  }

  /** The tokens of output that is words separated by single spaces, with any
      whitespace around them, are exactly those words. */
  lemma TokensOfWords(lead: string, words: seq<string>, tail: string)
    requires |words| >= 1 && forall k | 0 <= k < |words| :: words[k] != [] && NoSpace(words[k])
    requires AllSpace(lead) && AllSpace(tail)
    ensures Tokens(lead + Join(words, ' ') + tail) == words
  {
    var x := Join(words, ' ');
    JoinEnds(words, ' ');
    var last := words[|words| - 1];
    assert !IsSpace(last[|last| - 1]);
    TrimPadded(lead, x, tail);
    SplitWsJoin(words);
  }

  /** The text before the first `c` in `s`, or all of `s` when there is none. */
  function Before(s: string, c: char): string {
    if c in s then s[..IndexOf(s, c)] else s
  }

  /** `const [k, v] = token.split('=')`: the key is the text before the first `=`. */
  function KeyOf(token: string): string {
    Before(token, '=')
  }

  /** ... and the value the text between the first and the second `=`, undefined
      when the token has no `=`. */
  function ValueOf(token: string): Value {
    if '=' in token then Str(Before(token[IndexOf(token, '=') + 1..], '=')) else Undefined
  }

  /** The first piece of a split is the text before the first separator, and the
      second piece the text between the first and the second. */
  lemma SplitPieces(s: string, c: char)
    ensures Split(s, c)[0] == Before(s, c)
    ensures |Split(s, c)| >= 2 <==> c in s
    ensures c in s ==> Split(s, c)[1] == Before(s[IndexOf(s, c) + 1..], c)
  {
    if c in s {
      var rest := s[IndexOf(s, c) + 1..];
      assert Split(rest, c)[0] == Before(rest, c) by {
        SplitPieces(rest, c);
      }
    }
  }

  /** KeyOf and ValueOf are the first two pieces of `token.split('=')`. */
  lemma KeyValueSplit(token: string)
    ensures KeyOf(token) == Split(token, '=')[0]
    ensures ValueOf(token) == if |Split(token, '=')| >= 2 then Str(Split(token, '=')[1]) else Undefined
  {
    SplitPieces(token, '=');
  }

  /** Where key and value sit in a token: the key, one `=`, the value, and then
      either the end of the token or another `=`. */
  lemma TokenLayout(token: string)
    ensures '=' !in KeyOf(token) && LiteralAt(token, 0, KeyOf(token))
    ensures ValueOf(token).Undefined? <==> '=' !in token
    ensures ValueOf(token).Str? ==>
      var k, v := KeyOf(token), ValueOf(token).text;
      && '=' !in v
      && token[|k|] == '='
      && LiteralAt(token, |k| + 1, v)
      && (|k| + 1 + |v| == |token| || token[|k| + 1 + |v|] == '=')
  {
    BeforeLayout(token, '=');
    if '=' in token {
      var p := IndexOf(token, '=');
      var rest := token[p + 1..];
      BeforeLayout(rest, '=');
      var v := Before(rest, '=');
      assert |KeyOf(token)| == p && ValueOf(token).text == v;
      assert token[p + 1..p + 1 + |v|] == rest[..|v|];
      assert LiteralAt(token, p + 1, v);
      if |v| < |rest| {
        assert token[p + 1 + |v|] == rest[|v|];
      }
    }
  }

  /** The text before the first `c` is a prefix without `c`, followed by `c` or by
      the end of the text. */
  lemma BeforeLayout(s: string, c: char)
    ensures c !in Before(s, c) && LiteralAt(s, 0, Before(s, c))
    ensures c in s ==> |Before(s, c)| == IndexOf(s, c)
    ensures |Before(s, c)| == |s| || s[|Before(s, c)|] == c
  {
  }


  // ----- the object -----

  /** `obj[k] = v`. Assigning a string or undefined to `__proto__` goes to the
      inherited setter, which ignores it, so that token adds no property. */
  function Assign(obj: StatusObject, token: string): StatusObject {
    var k := KeyOf(token);
    if k == "__proto__" then obj else obj[k := ValueOf(token)]
  }

  /** The first loop: every token assigned in order. Every property holds a
      string or undefined, and none is `__proto__`. */
  function Assigned(tokens: seq<string>): (obj: StatusObject)
    ensures "__proto__" !in obj && forall k | k in obj :: !obj[k].Num?
  {
    if tokens == [] then map[]
    else Assign(Assigned(tokens[..|tokens| - 1]), tokens[|tokens| - 1])
  }

  /** A key is set exactly when some token carries it (and it is not `__proto__`). */
  lemma {:induction false} AssignedKeys(tokens: seq<string>, key: string)
    ensures key in Assigned(tokens) <==>
      key != "__proto__" && exists i | 0 <= i < |tokens| :: KeyOf(tokens[i]) == key
    decreases |tokens|
  {
    if tokens != [] {
      var n := |tokens| - 1;
      var init := tokens[..n];
      AssignedKeys(init, key);
      if key != "__proto__" && KeyOf(tokens[n]) != key {
        if exists i | 0 <= i < |tokens| :: KeyOf(tokens[i]) == key {
          var i :| 0 <= i < |tokens| && KeyOf(tokens[i]) == key;
          assert KeyOf(init[i]) == key;
        }
        if exists i | 0 <= i < |init| :: KeyOf(init[i]) == key {
          var i :| 0 <= i < |init| && KeyOf(init[i]) == key;
          assert KeyOf(tokens[i]) == key;
        }
      }
    }
  }

  /** A set key holds the value of the last token that carries it: later tokens
      overwrite earlier ones. */
  lemma {:induction false} AssignedLastWins(tokens: seq<string>, i: nat, key: string)
    requires i < |tokens| && KeyOf(tokens[i]) == key && key != "__proto__"
    requires forall j | i < j < |tokens| :: KeyOf(tokens[j]) != key
    ensures key in Assigned(tokens)
    ensures Assigned(tokens)[key] == ValueOf(tokens[i])
    decreases |tokens|
  {
    var n := |tokens| - 1;
    if i < n {
      var init := tokens[..n];
      assert init[i] == tokens[i];
      AssignedLastWins(init, i, key);
    }
  }

  /** Every set key holds the value of some token that carries it. */
  lemma {:induction false} AssignedFrom(tokens: seq<string>, key: string)
    requires key in Assigned(tokens)
    ensures exists i | 0 <= i < |tokens| :: KeyOf(tokens[i]) == key && Assigned(tokens)[key] == ValueOf(tokens[i])
    decreases |tokens|
  {
    var n := |tokens| - 1;
    var init := tokens[..n];
    if KeyOf(tokens[n]) != key || key == "__proto__" {
      AssignedFrom(init, key);
      var i :| 0 <= i < |init| && KeyOf(init[i]) == key && Assigned(init)[key] == ValueOf(init[i]);
      assert tokens[i] == init[i];
    }
  }

  /** `if (obj[k] != null) obj[k] = Number(...) || 0` for one numeric key. Only
      strings and undefined are stored before this step. */
  function Normalize(obj: StatusObject, key: string): StatusObject {
    if key in obj && obj[key].Str? then obj[key := Num(NumberOr0(obj[key].text))] else obj
  }

  /** The second loop, over a prefix of the numeric keys. */
  function Normalized(obj: StatusObject, keys: seq<string>): StatusObject {
    if keys == [] then obj
    else Normalize(Normalized(obj, keys[..|keys| - 1]), keys[|keys| - 1])
  }

  /** Normalising a list of distinct keys converts exactly the text values of those
      keys, and leaves every other property, and every undefined one, as it was. */
  lemma {:induction false} NormalizedAt(obj: StatusObject, keys: seq<string>, key: string)
    requires forall i, j | 0 <= i < j < |keys| :: keys[i] != keys[j]
    ensures key in Normalized(obj, keys) <==> key in obj
    ensures key in obj ==> (Normalized(obj, keys)[key] ==
      if key in keys && obj[key].Str? then Num(NumberOr0(obj[key].text)) else obj[key])
    decreases |keys|
  {
    if keys != [] {
      var init := keys[..|keys| - 1];
      NormalizedAt(obj, init, key);
      assert key in keys <==> key in init || key == keys[|keys| - 1];
    }
  }

  /** NormalizedAt for the five numeric keys, which are distinct. */
  lemma NormalizedNumeric(obj: StatusObject, key: string)
    ensures key in Normalized(obj, NumericKeys) <==> key in obj
    ensures key in obj ==> (Normalized(obj, NumericKeys)[key] ==
      if key in NumericKeys && obj[key].Str? then Num(NumberOr0(obj[key].text)) else obj[key])
  {
    NormalizedAt(obj, NumericKeys, key);
  }

  /** `obj[key] = obj[key] || fallback` */
  function DefaultTo(obj: StatusObject, key: string, fallback: Value): StatusObject {
    obj[key := if key in obj && Truthy(obj[key]) then obj[key] else fallback]
  }

  /** `channel` and `lock` are not numeric keys: they are longer than all of them. */
  lemma DefaultedKeysNotNumeric()
    ensures "channel" !in NumericKeys && "lock" !in NumericKeys
  {
    assert forall k | k in NumericKeys :: |k| <= 3;
  }

  /** Nor is `__proto__`. */
  lemma ProtoNotNumeric()
    ensures "__proto__" !in NumericKeys
  {
    assert forall k | k in NumericKeys :: |k| <= 3;
  }

  /** `obj.channel = obj.channel || 'none'; obj.lock = obj.lock || ''`: afterwards
      the channel is set and truthy and the lock is set; the defaults touch only
      `channel` and `lock`. */
  function WithDefaults(obj: StatusObject): (r: StatusObject)
    ensures "channel" in r && Truthy(r["channel"]) && "lock" in r
    ensures forall k | k != "channel" && k != "lock" :: (k in r <==> k in obj) && (k in obj ==> r[k] == obj[k])
  {
    DefaultTo(DefaultTo(obj, "channel", Str("none")), "lock", Str(""))
  }

  /** What every status object the gateway emits looks like: a non-empty channel
      text, a lock text, and numbers (or undefined) under the numeric keys. */
  predicate WellShaped(obj: StatusObject) {
    && "channel" in obj && obj["channel"].Str? && obj["channel"].text != ""
    && "lock" in obj && obj["lock"].Str?
    && forall k | k in NumericKeys && k in obj :: !obj[k].Str?
  }

  /** After the second loop no numeric key holds text, and `channel` and `lock`
      hold no number. */
  lemma NormalizedKinds(tokens: seq<string>)
    ensures var obj := Normalized(Assigned(tokens), NumericKeys);
      && (forall k | k in NumericKeys && k in obj :: !obj[k].Str?)
      && ("channel" in obj ==> !obj["channel"].Num?)
      && ("lock" in obj ==> !obj["lock"].Num?)
  {
    var given := Assigned(tokens);
    forall k | k in NumericKeys && k in Normalized(given, NumericKeys)
      ensures !Normalized(given, NumericKeys)[k].Str?
    {
      NormalizedNumeric(given, k);
    }
    NormalizedNumeric(given, "channel");
    NormalizedNumeric(given, "lock");
  }

  /** The defaults give a non-empty channel text and a lock text and leave the
      numeric keys alone. */
  lemma DefaultsShape(obj: StatusObject)
    requires forall k | k in NumericKeys && k in obj :: !obj[k].Str?
    requires "channel" in obj ==> !obj["channel"].Num?
    requires "lock" in obj ==> !obj["lock"].Num?
    ensures WellShaped(WithDefaults(obj))
  {
  }

  /** parseStatus, as a function of the tool's output. Every parsed status is well
      shaped, whatever the output. */
  function StatusOf(output: string): (obj: StatusObject)
    ensures WellShaped(obj)
  {
    var tokens := Tokens(output);
    NormalizedKinds(tokens);
    DefaultsShape(Normalized(Assigned(tokens), NumericKeys));
    WithDefaults(Normalized(Assigned(tokens), NumericKeys))
  }

  lemma AssignedStep(tokens: seq<string>, i: nat)
    requires i < |tokens|
    ensures Assigned(tokens[..i + 1]) == Assign(Assigned(tokens[..i]), tokens[i])
  {
    assert tokens[..i + 1][..i] == tokens[..i];
  }

  lemma NormalizedStep(obj: StatusObject, keys: seq<string>, j: nat)
    requires j < |keys|
    ensures Normalized(obj, keys[..j + 1]) == Normalize(Normalized(obj, keys[..j]), keys[j])
  {
    assert keys[..j + 1][..j] == keys[..j];
  }

  /** The first loop of parseStatus: each `key=value` token assigns its value to
      its key on a fresh object. */
  method AssignTokens(parts: seq<string>) returns (obj: StatusObject)
    ensures obj == Assigned(parts)
  {
    obj := map[];
    var i := 0;
    while i < |parts|
      invariant 0 <= i <= |parts|
      invariant obj == Assigned(parts[..i])
    {
      AssignedStep(parts, i);
      var k, v := KeyOf(parts[i]), ValueOf(parts[i]);
      if k != "__proto__" {
        obj := obj[k := v];
      }
      i := i + 1;
    }
    assert parts[..i] == parts;
  }

  /** The second loop of parseStatus: each numeric key that holds text gets its
      figure. */
  method NormalizeFigures(given: StatusObject) returns (obj: StatusObject)
    ensures obj == Normalized(given, NumericKeys)
  {
    obj := given;
    var j := 0;
    while j < |NumericKeys|
      invariant 0 <= j <= |NumericKeys|
      invariant obj == Normalized(given, NumericKeys[..j])
    {
      NormalizedStep(given, NumericKeys, j);
      var k := NumericKeys[j];
      if k in obj && obj[k].Str? {
        obj := obj[k := Num(NumberOr0(obj[k].text))];
      }
      j := j + 1;
    }
    assert NumericKeys[..j] == NumericKeys;
  }

  /** parseStatus: the first loop over a local object, the second loop, then the
      defaults. */
  method ParseStatus(output: string) returns (obj: StatusObject)
    ensures obj == StatusOf(output)
    ensures WellShaped(obj)
  {
    obj := AssignTokens(Tokens(output));
    obj := NormalizeFigures(obj);
    obj := DefaultTo(obj, "channel", Str("none"));
    obj := DefaultTo(obj, "lock", Str(""));
  }

  // ----- what the parsed object says -----

  /** A numeric key is present exactly when a token sets it; a text value is
      replaced by its figure (digits, dots and minus signs kept, then read, 0 on
      failure) and a token without `=` leaves it undefined. */
  lemma StatusNumeric(output: string, key: string)
    requires key in NumericKeys
    ensures var given := Assigned(Tokens(output));
      && (key in StatusOf(output) <==> key in given)
      && (key in given ==> (StatusOf(output)[key] ==
            if given[key].Str? then Num(NumberOr0(given[key].text)) else given[key]))
  {
    var given := Assigned(Tokens(output));
    NormalizedNumeric(given, key);
    DefaultedKeysNotNumeric();
  }

  /** Any other key keeps exactly the value its last token gave it. */
  lemma StatusOtherKey(output: string, key: string)
    requires key !in NumericKeys && key != "channel" && key != "lock"
    ensures var given := Assigned(Tokens(output));
      && (key in StatusOf(output) <==> key in given)
      && (key in given ==> StatusOf(output)[key] == given[key])
  {
    var given := Assigned(Tokens(output));
    NormalizedNumeric(given, key);
  }

  /** The defaults keep a non-empty channel and lock and fill in the others. */
  lemma DefaultsValues(obj: StatusObject)
    ensures WithDefaults(obj)["channel"] ==
      if "channel" in obj && Truthy(obj["channel"]) then obj["channel"] else Str("none")
    ensures WithDefaults(obj)["lock"] ==
      if "lock" in obj && Truthy(obj["lock"]) then obj["lock"] else Str("")
  {
  }

  /** No token with a non-empty channel value: the channel is "none". */
  lemma StatusChannelDefault(output: string)
    requires forall t | t in Tokens(output) && KeyOf(t) == "channel" :: !Truthy(ValueOf(t))
    ensures StatusOf(output)["channel"] == Str("none")
  {
    var tokens := Tokens(output);
    DefaultedKeysNotNumeric();
    NormalizedNumeric(Assigned(tokens), "channel");
    DefaultsValues(Normalized(Assigned(tokens), NumericKeys));
    if "channel" in Assigned(tokens) {
      AssignedFrom(tokens, "channel");
    }
  }

  /** No token with a non-empty lock value: the lock is the empty text. */
  lemma StatusLockDefault(output: string)
    requires forall t | t in Tokens(output) && KeyOf(t) == "lock" :: !Truthy(ValueOf(t))
    ensures StatusOf(output)["lock"] == Str("")
  {
    var tokens := Tokens(output);
    DefaultedKeysNotNumeric();
    NormalizedNumeric(Assigned(tokens), "lock");
    DefaultsValues(Normalized(Assigned(tokens), NumericKeys));
    if "lock" in Assigned(tokens) {
      AssignedFrom(tokens, "lock");
    }
  }

  /** The last channel token wins when its value is non-empty. */
  lemma StatusChannelKept(output: string, i: nat)
    requires i < |Tokens(output)| && KeyOf(Tokens(output)[i]) == "channel"
    requires Truthy(ValueOf(Tokens(output)[i]))
    requires forall j | i < j < |Tokens(output)| :: KeyOf(Tokens(output)[j]) != "channel"
    ensures StatusOf(output)["channel"] == ValueOf(Tokens(output)[i])
  {
    var tokens := Tokens(output);
    var given := Assigned(tokens);
    var normalized := Normalized(given, NumericKeys);
    AssignedLastWins(tokens, i, "channel");
    DefaultedKeysNotNumeric();
    NormalizedNumeric(given, "channel");
    DefaultsValues(normalized);
  }

  /** A figure `key=value` written among blank-separated words, and the last word
      for its key, gives that key the number read from its value. */
  lemma StatusFigure(lead: string, words: seq<string>, tail: string, i: nat)
    requires |words| >= 1 && forall k | 0 <= k < |words| :: words[k] != [] && NoSpace(words[k])
    requires AllSpace(lead) && AllSpace(tail)
    requires i < |words| && KeyOf(words[i]) in NumericKeys && '=' in words[i]
    requires forall j | i < j < |words| :: KeyOf(words[j]) != KeyOf(words[i])
    ensures var key, output := KeyOf(words[i]), lead + Join(words, ' ') + tail;
      key in StatusOf(output) && StatusOf(output)[key] == Num(NumberOr0(ValueOf(words[i]).text))
  {
    var key, output := KeyOf(words[i]), lead + Join(words, ' ') + tail;
    TokensOfWords(lead, words, tail);
    ProtoNotNumeric();
    AssignedLastWins(words, i, key);
    var given := Assigned(Tokens(output));
    assert key in given && given[key] == ValueOf(words[i]);
    assert ValueOf(words[i]).Str?;
    StatusNumeric(output, key);
  }

  /** Output that is a single figure `key=value` gives that key the number read
      from the value. */
  lemma StatusSingleFigure(key: string, value: string)
    requires key in NumericKeys && '=' !in value && NoSpace(value)
    ensures key in StatusOf(key + "=" + value) && StatusOf(key + "=" + value)[key] == Num(NumberOr0(value))
  {
    NumericKeyForm(key);
    FigureToken(key, value);
    var w := key + "=" + value;
    assert Join([w], ' ') == w && "" + w + "" == w;
    StatusFigure("", [w], "", 0);
  }

  /** The numeric keys are words without `=`. */
  lemma NumericKeyForm(key: string)
    requires key in NumericKeys
    ensures NoSpace(key) && '=' !in key
  {
    assert forall k | k in NumericKeys :: NoSpace(k) && '=' !in k;
  }

  /** The token `key=value` has that key and that value. */
  lemma FigureToken(key: string, value: string)
    requires NoSpace(key) && '=' !in key && '=' !in value && NoSpace(value)
    ensures var w := key + "=" + value; KeyOf(w) == key && ValueOf(w) == Str(value) && NoSpace(w)
  {
    var w := key + "=" + value;
    assert w[..|key|] == key && w[|key| + 1..] == value;
    IndexOfAt(w, '=', |key|);
  }

  /** Unit suffixes are dropped end to end: the output `ss=85%` gives `ss` the
      number 85. */
  lemma StatusPercent()
    ensures "ss" in StatusOf("ss=85%") && StatusOf("ss=85%")["ss"] == Num(85.0)
  {
    assert "ss" + "=" + "85%" == "ss=85%";
    StatusSingleFigure("ss", "85%");
    NumberOfPercent();
  }

  /** The status pushed when the status read fails: idle and all figures zero. */
  const IdleStatus: StatusObject := map[
    "channel" := Str("none"), "lock" := Str(""),
    "ss" := Num(0.0), "snq" := Num(0.0), "seq" := Num(0.0), "bps" := Num(0.0), "pps" := Num(0.0)]

  /** The idle status has the shape of a parsed one, says "none" and "" and carries
      a zero under every numeric key. */
  lemma IdleStatusShape()
    ensures WellShaped(IdleStatus)
    ensures IdleStatus["channel"] == Str("none") && IdleStatus["lock"] == Str("")
    ensures forall k | k in NumericKeys :: k in IdleStatus && IdleStatus[k] == Num(0.0)
  {
  }
}
