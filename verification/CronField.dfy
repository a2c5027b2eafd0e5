/** One field of a cron expression: internal/api/cronmanager.go, matchField. */
module CronField {
  import opened Common
  import opened GoStrings

  /** Two's-complement wrap-around of Go's 64-bit int. */
  function Wrap64(x: int): int {
    (x + 0x8000_0000_0000_0000) % 0x1_0000_0000_0000_0000 - 0x8000_0000_0000_0000
  }

  /** The 64-bit difference is a multiple of the step. */
  predicate OnStep(difference: int, step: int)
    requires step > 0
  {
    Wrap64(difference) % step == 0
  }

  // The step forms: a star or a start value, a slash, and the step.
  predicate StepMatches(field: string, val: int, min: int)
    requires '/' in field
  {
    var i := IndexOf(field, '/');
    var step := Atoi(field[i + 1..]);
    var start := if field[..i] == "*" then Some(min) else Atoi(field[..i]);
    step.Some? && step.value > 0 && start.Some? && val >= start.value
    && OnStep(val - start.value, step.value)
  }

  /** One element of a comma-separated list: "a-b" or "a". */
  predicate PartMatches(part: string, val: int) {
    if '-' in part then
      var i := IndexOf(part, '-');
      var lo, hi := Atoi(part[..i]), Atoi(part[i + 1..]);
      lo.Some? && hi.Some? && lo.value <= val <= hi.value
    else
      Atoi(part) == Some(val)
  }

  predicate SomePartMatches(parts: seq<string>, val: int) {
    exists k :: 0 <= k < |parts| && PartMatches(parts[k], val)
  }

  predicate FieldMatches(field: string, val: int, min: int) {
    if field == "*" then true
    else if '/' in field then StepMatches(field, val, min)
    else SomePartMatches(Split(field, ','), val)
  }

  /** matchField as the source runs it: early returns, and a loop over the list's parts. */
  method MatchField(field: string, val: int, min: int, max: int) returns (matches: bool)
    ensures matches == FieldMatches(field, val, min)
  {
    if field == "*" {
      return true;
    }
    if '/' in field {
      matches := MatchStep(field, val, min);
      return;
    }
    matches := MatchList(Split(field, ','), val);
  }

  method MatchStep(field: string, val: int, min: int) returns (matches: bool)
    requires '/' in field
    ensures matches == StepMatches(field, val, min)
  {
    var i := IndexOf(field, '/');
    var step := Atoi(field[i + 1..]);
    if step.None? || step.value <= 0 {
      return false;
    }
    var start := min;
    if field[..i] != "*" {
      var n := Atoi(field[..i]);
      if n.None? {
        return false;
      }
      start := n.value;
    }
    if val < start {
      return false;
    }
    return OnStep(val - start, step.value);
  }

  method MatchList(parts: seq<string>, val: int) returns (matches: bool)
    ensures matches == SomePartMatches(parts, val)
  {
    for k := 0 to |parts|
      invariant forall j :: 0 <= j < k ==> !PartMatches(parts[j], val)
    {
      var hit := MatchPart(parts[k], val);
      if hit {
        return true;
      }
    }
    return false;
  }

  method MatchPart(part: string, val: int) returns (hit: bool)
    ensures hit == PartMatches(part, val)
  {
    if '-' in part {
      var i := IndexOf(part, '-');
      var lo, hi := Atoi(part[..i]), Atoi(part[i + 1..]);
      return lo.Some? && hi.Some? && val >= lo.value && val <= hi.value;
    }
    var n := Atoi(part);
    return n.Some? && n.value == val;
  }

  // ---------------------------------------------------------------- what fields mean

  /** A number that fits a Go int. */
  type Num = n: nat | n < 0x8000_0000_0000_0000

  datatype Item = One(n: Num) | Range(lo: Num, hi: Num)

  /** The documented field syntax, as abstract syntax. */
  datatype Field = Any | Every(step: Num) | From(start: Num, step: Num) | Items(items: seq<Item>)

  function ShowItem(it: Item): string {
    match it
    case One(n) => Itoa(n)
    case Range(lo, hi) => Itoa(lo) + "-" + Itoa(hi)
  }

  function ShowItems(items: seq<Item>): seq<string> {
    seq(|items|, k requires 0 <= k < |items| => ShowItem(items[k]))
  }

  function Show(f: Field): string {
    match f
    case Any => "*"
    case Every(step) => "*" + "/" + Itoa(step)
    case From(start, step) => Itoa(start) + "/" + Itoa(step)
    case Items(items) => Join(ShowItems(items), ',')
  }

  predicate InItem(it: Item, val: int) {
    match it
    case One(n) => val == n
    case Range(lo, hi) => lo <= val <= hi
  }

  /** The set of values a field denotes, in arithmetic progressions and intervals. */
  ghost predicate Denotes(f: Field, val: int, min: int) {
    match f
    case Any => true
    case Every(step) => exists k: nat :: Steps(min, step, k) == val && step > 0
    case From(start, step) => exists k: nat :: Steps(start, step, k) == val && step > 0
    case Items(items) => exists i :: 0 <= i < |items| && InItem(items[i], val)
  }

  function Steps(start: int, step: nat, k: nat): int { start + k * step }

  lemma NumberCharacters(n: nat)
    ensures Itoa(n) != "" && ',' !in Itoa(n) && '/' !in Itoa(n) && '-' !in Itoa(n) && '*' !in Itoa(n)
  {
  }

  lemma ShownNumber(n: Num, val: int)
    ensures PartMatches(Itoa(n), val) == (val == n)
  {
    AtoiOfItoa(n);
    NumberCharacters(n);
  }

  lemma ShownRange(lo: Num, hi: Num, val: int)
    ensures PartMatches(Itoa(lo) + "-" + Itoa(hi), val) == (lo <= val <= hi)
  {
    AtoiOfItoa(lo);
    AtoiOfItoa(hi);
    NumberCharacters(lo);
    var s := Itoa(lo) + ['-'] + Itoa(hi);
    IndexOfSep(Itoa(lo), '-', Itoa(hi));
    assert s[|Itoa(lo)|] == '-';
    assert s[..|Itoa(lo)|] == Itoa(lo) && s[|Itoa(lo)| + 1..] == Itoa(hi);
  }

  lemma ShownItem(it: Item, val: int)
    ensures ',' !in ShowItem(it) && '/' !in ShowItem(it) && '*' !in ShowItem(it)
    ensures PartMatches(ShowItem(it), val) == InItem(it, val)
  {
    match it
    case One(n) =>
      NumberCharacters(n);
      ShownNumber(n, val);
    case Range(lo, hi) =>
      NumberCharacters(lo);
      NumberCharacters(hi);
      ShownRange(lo, hi, val);
  }

  lemma {:induction false} JoinAvoids(parts: seq<string>, c: char)
    requires c != ',' && forall p :: p in parts ==> c !in p
    ensures c !in Join(parts, ',')
  {
    if |parts| == 1 {
      assert parts[0] in parts;
    } else if |parts| > 1 {
      assert parts[0] in parts;
      JoinAvoids(parts[1..], c);
    }
  }

  lemma ShownParts(items: seq<Item>)
    ensures forall p :: p in ShowItems(items) ==> ',' !in p && '/' !in p && '*' !in p
  {
    forall p | p in ShowItems(items) ensures ',' !in p && '/' !in p && '*' !in p {
      var k :| 0 <= k < |items| && ShowItems(items)[k] == p;
      ShownItem(items[k], 0);
    }
  }

  lemma {:induction false} FieldIsList(field: string, val: int, min: int)
    requires '*' !in field && '/' !in field
    ensures FieldMatches(field, val, min) == SomePartMatches(Split(field, ','), val)
  {
    NotStar(field);
  }

  lemma NotStar(field: string)
    requires '*' !in field
    ensures field != "*"
  {
    var star := "*";
    assert star[0] == '*';
    assert '*' in star;
  }

  lemma PartsMatchItems(items: seq<Item>, val: int)
    ensures SomePartMatches(ShowItems(items), val)
            <==> exists i :: 0 <= i < |items| && InItem(items[i], val)
  {
    var parts := ShowItems(items);
    forall k | 0 <= k < |parts| ensures PartMatches(parts[k], val) == InItem(items[k], val) {
      ShownItem(items[k], val);
    }
  }

  lemma ShownItems(items: seq<Item>, val: int, min: int)
    ensures FieldMatches(Show(Items(items)), val, min) == Denotes(Items(items), val, min)
  {
    var parts := ShowItems(items);
    if items == [] {
      assert Split("", ',') == [""];
    } else {
      ShownParts(items);
      SplitOfJoin(parts, ',');
      JoinAvoids(parts, '/');
      JoinAvoids(parts, '*');
      FieldIsList(Join(parts, ','), val, min);
      PartsMatchItems(items, val);
    }
  }

  lemma StepsReached(start: int, step: nat, val: int)
    ensures (step > 0 && val >= start && (val - start) % step == 0)
            <==> exists k: nat :: Steps(start, step, k) == val && step > 0
  {
    if step > 0 && val >= start && (val - start) % step == 0 {
      var k := (val - start) / step;
      assert k >= 0 && val - start == k * step;
      assert Steps(start, step, k) == val;
    }
    if k: nat :| Steps(start, step, k) == val && step > 0 {
      MultipleMod(k, step);
      assert val - start == k * step;
      assert k * step >= 0;
    }
  }

  lemma MultipleMod(k: nat, n: nat)
    requires n > 0
    ensures (k * n) % n == 0
  {
    var q, r := (k * n) / n, (k * n) % n;
    assert (k - q) * n == r;
    if k - q >= 1 {
      TimesAtLeast(k - q, n);
      assert false;
    } else if q - k >= 1 {
      TimesAtLeast(q - k, n);
      assert false;
    }
  }

  lemma TimesAtLeast(a: int, n: int)
    requires a >= 1 && n > 0
    ensures a * n >= n
  {
  }

  lemma SplitStep(head: string, step: Num)
    requires '/' !in head
    ensures var field := head + "/" + Itoa(step);
            var i := IndexOf(field, '/');
            '/' in field && field != "*" && i == |head| && field[..i] == head && Atoi(field[i + 1..]) == Some(step)
  {
    var field := head + ['/'] + Itoa(step);
    IndexOfSep(head, '/', Itoa(step));
    assert field[|head|] == '/';
    assert field[..|head|] == head && field[|head| + 1..] == Itoa(step);
    AtoiOfItoa(step);
  }

  lemma FieldIsStep(field: string, val: int, min: int)
    requires field != "*" && '/' in field
    ensures FieldMatches(field, val, min) == StepMatches(field, val, min)
  {
  }

  lemma SmallStep(difference: int, step: int)
    requires step > 0 && 0 <= difference < 0x8000_0000_0000_0000
    ensures OnStep(difference, step) == (difference % step == 0)
  {
  }

  lemma ParsedStep(field: string, head: string, start: Num, step: Num, val: int, min: int)
    requires '/' in field && var i := IndexOf(field, '/'); field[..i] == head && Atoi(field[i + 1..]) == Some(step)
    requires if head == "*" then start == min else Atoi(head) == Some(start)
    requires val < 0x8000_0000_0000_0000
    ensures StepMatches(field, val, min) <==> step > 0 && val >= start && (val - start) % step == 0
  {
    if step > 0 && val >= start {
      SmallStep(val - start, step);
    }
  }

  /** A printed step field: "head/step", where the head is "*" or a number. */
  lemma ShownStep(head: string, start: Num, step: Num, val: int, min: int)
    requires (head == "*" && start == min) || head == Itoa(start)
    requires val < 0x8000_0000_0000_0000
    ensures FieldMatches(head + "/" + Itoa(step), val, min)
            <==> exists k: nat :: Steps(start, step, k) == val && step > 0
  {
    var field := head + "/" + Itoa(step);
    if head != "*" {
      AtoiOfItoa(start);
    }
    NumberCharacters(start);
    NumberIsNotStar(start);
    SplitStep(head, step);
    FieldIsStep(field, val, min);
    ParsedStep(field, head, start, step, val, min);
    StepsReached(start, step, val);
  }

  lemma NumberIsNotStar(n: nat)
    ensures Itoa(n) != "*"
  {
    NumberCharacters(n);
    NotStar(Itoa(n));
  }

  /** The wrapped difference is the 64-bit integer congruent to the difference. */
  lemma WrapIsTwosComplement(x: int)
    ensures -0x8000_0000_0000_0000 <= Wrap64(x) < 0x8000_0000_0000_0000
    ensures exists k :: x - Wrap64(x) == k * 0x1_0000_0000_0000_0000
  {
    var k := (x + 0x8000_0000_0000_0000) / 0x1_0000_0000_0000_0000;
    assert x - Wrap64(x) == k * 0x1_0000_0000_0000_0000;
  }

  // ---------------------------------------------------------------- what does not parse

  /** Neither a number nor two numbers around the first hyphen. */
  ghost predicate BadPart(part: string) {
    if '-' in part then
      var i := IndexOf(part, '-'); !IsNumeral(part[..i]) || !IsNumeral(part[i + 1..])
    else !IsNumeral(part)
  }

  lemma BadPartMatchesNothing(part: string, val: int)
    requires BadPart(part)
    ensures !PartMatches(part, val)
  {
    if '-' in part {
      var i := IndexOf(part, '-');
      if !IsNumeral(part[..i]) {
        UnparsedIfNotNumeral(part[..i]);
      } else {
        UnparsedIfNotNumeral(part[i + 1..]);
      }
    } else {
      UnparsedIfNotNumeral(part);
    }
  }

  /** A list none of whose parts is a number or a range of numbers, names of weekdays say, matches no
      value; it is not rejected. */
  lemma BadListMatchesNothing(parts: seq<string>, val: int, min: int)
    requires parts != [] && forall p :: p in parts ==> BadPart(p) && ',' !in p && '/' !in p
    requires parts != ["*"]
    ensures !FieldMatches(Join(parts, ','), val, min)
  {
    SplitOfJoin(parts, ',');
    JoinAvoids(parts, '/');
    assert IndexOf("*", ',') == 1 && Split("*", ',') == ["*"];
    forall k | 0 <= k < |parts| ensures !PartMatches(parts[k], val) {
      BadPartMatchesNothing(parts[k], val);
    }
  }

  /** A step form matches no value when its step is not a number, or its head neither a star nor a number:
      so ranges with a step are not supported. */
  lemma BadStepMatchesNothing(head: string, step: string, val: int, min: int)
    requires '/' !in head
    requires !IsNumeral(step) || (head != "*" && !IsNumeral(head))
    ensures !FieldMatches(head + "/" + step, val, min)
  {
    var field := head + ['/'] + step;
    IndexOfSep(head, '/', step);
    assert field[|head|] == '/' && '/' in field;
    assert field[..|head|] == head && field[|head| + 1..] == step;
    FieldIsStep(field, val, min);
    if !IsNumeral(step) {
      UnparsedIfNotNumeral(step);
    } else {
      UnparsedIfNotNumeral(head);
    }
  }

  /** A range with a step, "1-5/2", and a range of names, "MON-FRI", never match. */
  lemma UnsupportedForms(field: string, val: int, min: int)
    requires field == "1-5/2" || field == "MON-FRI"
    ensures !FieldMatches(field, val, min)
  {
    if field == "1-5/2" {
      var head := "1-5";
      assert head[1] == '-';
      if IsNumeral(head) {
        NumeralDigits(head, 1);
      }
      assert field == head + "/" + "2";
      BadStepMatchesNothing(head, "2", val, min);
    } else {
      var from := "MON";
      assert from[1] == 'O';
      if IsNumeral(from) {
        NumeralDigits(from, 1);
      }
      IndexOfSep(from, '-', "FRI");
      assert field == from + ['-'] + "FRI" && field[3] == '-' && field[..3] == from;
      assert Join([field], ',') == field;
      BadListMatchesNothing([field], val, min);
    }
  }

  // ---------------------------------------------------------------- the meaning of a field

  lemma {:induction false} ShownIsWord(f: Field)
    requires f != Items([])
    ensures IsWord(Show(f))
  {
    match f
    case Any =>
    case Every(step) => ShownCharacters("*/", Itoa(step));
    case From(start, step) => ShownCharacters(Itoa(start) + "/", Itoa(step));
    case Items(items) => JoinedItems(items);
  }

  predicate FieldCharacters(s: string) {
    forall c :: c in s ==> IsDigit(c) || c == '*' || c == '/' || c == '-' || c == ','
  }

  lemma ShownCharacters(a: string, b: string)
    requires FieldCharacters(a) && FieldCharacters(b) && a + b != ""
    ensures FieldCharacters(a + b) && IsWord(a + b)
  {
  }

  lemma {:induction false} JoinedItems(items: seq<Item>)
    requires items != []
    ensures FieldCharacters(Join(ShowItems(items), ',')) && IsWord(Join(ShowItems(items), ','))
  {
    var parts := ShowItems(items);
    var first := ShowItem(items[0]);
    assert FieldCharacters(first) && first != "";
    if |items| == 1 {
      ShownCharacters(first, "");
      assert first + "" == first;
    } else {
      JoinedItems(items[1..]);
      assert parts[1..] == ShowItems(items[1..]);
      ShownCharacters(first + ",", Join(parts[1..], ','));
    }
  }

  /** Every documented field form matches exactly the values it denotes. */
  lemma ShownFieldMeaning(f: Field, val: int, min: int)
    requires 0 <= min < 0x8000_0000_0000_0000 && val < 0x8000_0000_0000_0000
    ensures FieldMatches(Show(f), val, min) <==> Denotes(f, val, min)
  {
    match f
    case Any =>
    case Every(step) => ShownStep("*", min, step, val, min);
    case From(start, step) => ShownStep(Itoa(start), start, step, val, min);
    case Items(items) => ShownItems(items, val, min);
  }
}
