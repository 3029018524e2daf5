/**
 * The card-masking scanner of src/dlp.rs. Text is a sequence of characters; a run of ASCII digits
 * with single spaces or hyphens between them may start with a payment card number (ISO/IEC 7812-1),
 * whose digits are then replaced by asterisks.
 */
module CardMask {
  import opened Wrappers

  predicate IsDigit(c: char) { '0' <= c <= '9' }

  predicate IsSeparator(c: char) { c == ' ' || c == '-' }

  function DigitValue(c: char): nat
    requires IsDigit(c)
  {
    (c - '0') as nat
  }

  // ----- card numbers ------------------------------------------------------------------------------

  function Doubled(d: nat): nat { if 2 * d > 9 then 2 * d - 9 else 2 * d }

  /** The Luhn sum, from the right; every second digit is doubled. */
  function LuhnSum(digits: seq<nat>, double: bool): nat {
    if digits == [] then 0
    else
      var n := |digits| - 1;
      (if double then Doubled(digits[n]) else digits[n]) + LuhnSum(digits[..n], !double)
  }

  predicate AllSame(digits: seq<nat>) { digits != [] && forall i :: 0 <= i < |digits| ==> digits[i] == digits[0] }

  predicate CardValid(digits: seq<nat>) { 13 <= |digits| <= 19 && !AllSame(digits) && LuhnSum(digits, false) % 10 == 0 }

  method Luhn(digits: seq<nat>) returns (ok: bool)
    ensures ok == (LuhnSum(digits, false) % 10 == 0)
  {
    var sum, double := 0, false;
    var i := |digits|;
    assert digits[..i] == digits;
    while i > 0
      invariant 0 <= i <= |digits| && LuhnSum(digits, false) == sum + LuhnSum(digits[..i], double)
    {
      assert digits[..i][..i - 1] == digits[..i - 1];
      var n := digits[i - 1];
      if double {
        n := 2 * n;
        if n > 9 {
          n := n - 9;
        }
      }
      sum := sum + n;
      double := !double;
      i := i - 1;
    }
    ok := sum % 10 == 0;
  }

  /** The sum by position: every second digit from the right counts as the digits of its double. */
  ghost function PositionalSum(digits: seq<nat>, k: nat): nat
    requires k <= |digits|
  {
    if k == 0 then 0
    else
      var d := digits[k - 1];
      PositionalSum(digits, k - 1) + if (|digits| - k) % 2 == 0 then d else 2 * d / 10 + 2 * d % 10
  }

  ghost predicate AreDigits(digits: seq<nat>) { forall i :: 0 <= i < |digits| ==> digits[i] < 10 }

  lemma {:induction false} LuhnByPosition(digits: seq<nat>, k: nat)
    requires k <= |digits| && AreDigits(digits)
    ensures LuhnSum(digits[..k], (|digits| - k) % 2 == 1) == PositionalSum(digits, k)
  {
    hide Doubled;
    if k > 0 {
      LuhnByPosition(digits, k - 1);
      assert digits[..k][..k - 1] == digits[..k - 1];
      NextParity(|digits| - k);
      DoubledDigits(digits[k - 1]);
    }
  }

  lemma {:induction false} NextParity(m: nat)
    ensures (m + 1) % 2 == 1 <==> m % 2 == 0
    ensures m % 2 == 1 <==> m % 2 != 0
  {}

  lemma {:induction false} DoubledDigits(d: nat)
    requires d < 10
    ensures Doubled(d) == 2 * d / 10 + 2 * d % 10
  {}

  /** A card number has 13 to 19 digits, not all the same, and a sum by position that ends in zero. */
  lemma {:induction false} CardsExactly(digits: seq<nat>)
    requires AreDigits(digits)
    ensures CardValid(digits) <==>
              && 13 <= |digits| <= 19
              && (exists i :: 0 <= i < |digits| && digits[i] != digits[0])
              && PositionalSum(digits, |digits|) % 10 == 0
  {
    LuhnByPosition(digits, |digits|);
    assert digits[..|digits|] == digits;
  }

  /** What the check digit is for: one mistyped digit always changes the sum modulo ten. */
  lemma {:induction false} LuhnCatchesOneWrongDigit(digits: seq<nat>, double: bool, k: nat, wrong: nat)
    requires k < |digits| && digits[k] < 10 && wrong < 10 && wrong != digits[k]
    ensures LuhnSum(digits[k := wrong], double) % 10 != LuhnSum(digits, double) % 10
  {
    hide Doubled;
    var n := |digits| - 1;
    var changed := digits[k := wrong];
    if k == n {
      assert changed[..n] == digits[..n];
      DifferentDigits(LuhnSum(digits[..n], !double), digits[k], wrong);
      DoubledIsOneToOne(digits[k], wrong);
      DifferentDigits(LuhnSum(digits[..n], !double), Doubled(digits[k]), Doubled(wrong));
    } else {
      assert changed[..n] == digits[..n][k := wrong];
      LuhnCatchesOneWrongDigit(digits[..n], !double, k, wrong);
      DifferentSums(LuhnSum(digits[..n], !double), LuhnSum(changed[..n], !double),
                    if double then Doubled(digits[n]) else digits[n]);
    }
  }

  lemma {:induction false} DoubledIsOneToOne(a: nat, b: nat)
    requires a < 10 && b < 10 && a != b
    ensures Doubled(a) != Doubled(b) && Doubled(a) < 10 && Doubled(b) < 10
  {}

  lemma {:induction false} DifferentDigits(sum: nat, a: nat, b: nat)
    requires a < 10 && b < 10 && a != b
    ensures (a + sum) % 10 != (b + sum) % 10
  {}

  lemma {:induction false} DifferentSums(a: nat, b: nat, d: nat)
    requires a % 10 != b % 10
    ensures (d + a) % 10 != (d + b) % 10
  {
    var r, t := a % 10, b % 10;
    assert a == 10 * (a / 10) + r && b == 10 * (b / 10) + t;
    DifferentDigits(d, r, t);
    TensDrop(d + r, a / 10);
    TensDrop(d + t, b / 10);
  }

  lemma {:induction false} TensDrop(x: nat, q: nat)
    ensures (x + 10 * q) % 10 == x % 10
  {}

  // ----- runs and the card at the start of a run ------------------------------------------------------

  predicate InRun(text: string, k: nat) {
    && k < |text|
    && (IsDigit(text[k]) || (IsSeparator(text[k]) && k + 1 < |text| && IsDigit(text[k + 1])))
  }

  function RunEnd(text: string, start: nat): (end: nat)
    requires start <= |text|
    ensures start <= end <= |text| && !InRun(text, end)
    ensures forall k :: start <= k < end ==> InRun(text, k)
    decreases |text| - start
  {
    if InRun(text, start) then RunEnd(text, start + 1) else start
  }

  /** The digits of a stretch of text. */
  function Digits(s: string): seq<nat> {
    if s == [] then []
    else Digits(s[..|s| - 1]) + (if IsDigit(s[|s| - 1]) then [DigitValue(s[|s| - 1])] else [])
  }

  /** A valid card fills the run from its start up to `end`, and no digit follows it in the run. */
  predicate IsCardEnd(run: string, end: nat) {
    && 0 < end <= |run| && IsDigit(run[end - 1])
    && CardValid(Digits(run[..end]))
    && (end == |run| || !IsDigit(run[end]))
  }

  /** The last such end up to `k`, if there is one. */
  function BestEnd(run: string, k: nat): Option<nat>
    requires k <= |run|
  {
    if k == 0 then None else if IsCardEnd(run, k) then Some(k) else BestEnd(run, k - 1)
  }

  /** The digits of a text are the values of its digit characters, one by one. */
  lemma {:induction false} DigitsOneByOne(s: string, c: char)
    ensures Digits([]) == []
    ensures '0' <= c <= '9' ==> Digits(s + [c]) == Digits(s) + [c as nat - 48]
    ensures !('0' <= c <= '9') ==> Digits(s + [c]) == Digits(s)
  {
    assert (s + [c])[..|s|] == s;
  }

  lemma {:induction false} DigitsAreDigits(s: string)
    ensures AreDigits(Digits(s))
  {
    if s != [] {
      DigitsAreDigits(s[..|s| - 1]);
    }
  }

  method CardRunEnd(text: string, start: nat) returns (k: nat)
    requires start <= |text|
    ensures k == RunEnd(text, start)
  {
    k := start;
    while InRun(text, k)
      invariant start <= k <= |text| && RunEnd(text, k) == RunEnd(text, start)
      decreases |text| - k
    {
      k := k + 1;
    }
  }

  method BestCardEnd(run: string) returns (best: Option<nat>)
    requires forall k :: 0 <= k < |run| ==> IsDigit(run[k]) || IsSeparator(run[k])
    ensures best == BestEnd(run, |run|)
  {
    var digits := [];
    best := None;
    for k := 0 to |run|
      invariant digits == Digits(run[..k]) && best == BestEnd(run, k)
    {
      assert run[..k + 1][..k] == run[..k];
      if IsDigit(run[k]) {
        digits := digits + [DigitValue(run[k])];
        if CardValid(digits) {
          if k + 1 == |run| || !IsDigit(run[k + 1]) {
            best := Some(k + 1);
          }
        }
      }
    }
  }

  lemma {:induction false} BestEndIsLast(run: string, k: nat)
    requires k <= |run|
    ensures match BestEnd(run, k)
            case None => forall end :: 0 < end <= k ==> !IsCardEnd(run, end)
            case Some(best) =>
              best <= k && IsCardEnd(run, best) && forall end :: best < end <= k ==> !IsCardEnd(run, end)
  {
    if k > 0 && !IsCardEnd(run, k) {
      BestEndIsLast(run, k - 1);
    }
  }

  // ----- masking ------------------------------------------------------------------------------------------

  /** Unicode white space. */
  predicate IsWhitespace(c: char) {
    || '\t' <= c <= '\r' || c == ' ' || c == '\U{85}' || c == '\U{A0}' || c == '\U{1680}'
    || '\U{2000}' <= c <= '\U{200A}' || c == '\U{2028}' || c == '\U{2029}' || c == '\U{202F}'
    || c == '\U{205F}' || c == '\U{3000}'
  }

  function LastSolid(s: string): Option<char> {
    if s == [] then None
    else if IsWhitespace(s[|s| - 1]) then LastSolid(s[..|s| - 1])
    else Some(s[|s| - 1])
  }

  function FirstSolid(s: string): Option<char> {
    if s == [] then None else if IsWhitespace(s[0]) then FirstSolid(s[1..]) else Some(s[0])
  }

  /** The stretch is a bare number where JSON has a value, so that masking it calls for quotes. */
  predicate IsJsonNumberToken(text: string, start: nat, end: nat)
    requires start <= end <= |text|
  {
    && (forall k :: start <= k < end ==> IsDigit(text[k]))
    && LastSolid(text[..start]) in {Some(':'), Some('['), Some(',')}
    && FirstSolid(text[end..]) in {None, Some(','), Some('}'), Some(']')}
  }

  lemma {:induction false} LastSolidIs(s: string, p: nat)
    requires p < |s| && !IsWhitespace(s[p]) && forall k :: p < k < |s| ==> IsWhitespace(s[k])
    ensures LastSolid(s) == Some(s[p])
  {
    if p < |s| - 1 {
      LastSolidIs(s[..|s| - 1], p);
    }
  }

  lemma {:induction false} LastSolidStands(s: string) returns (p: nat)
    requires LastSolid(s).Some?
    ensures p < |s| && LastSolid(s) == Some(s[p]) && forall k :: p < k < |s| ==> IsWhitespace(s[k])
  {
    if IsWhitespace(s[|s| - 1]) {
      p := LastSolidStands(s[..|s| - 1]);
    } else {
      p := |s| - 1;
    }
  }

  lemma {:induction false} FirstSolidIs(s: string, p: nat)
    requires p <= |s| && (p < |s| ==> !IsWhitespace(s[p])) && forall k :: 0 <= k < p ==> IsWhitespace(s[k])
    ensures FirstSolid(s) == if p == |s| then None else Some(s[p])
  {
    if p > 0 {
      FirstSolidIs(s[1..], p - 1);
    }
  }

  lemma {:induction false} FirstSolidStands(s: string) returns (p: nat)
    ensures p <= |s| && (p < |s| ==> !IsWhitespace(s[p])) && forall k :: 0 <= k < p ==> IsWhitespace(s[k])
  {
    if s == [] || !IsWhitespace(s[0]) {
      p := 0;
    } else {
      var q := FirstSolidStands(s[1..]);
      p := q + 1;
      assert forall k :: 0 < k < p ==> s[k] == s[1..][k - 1];
    }
  }

  /** Before the stretch, white space aside, stands a colon, a bracket or a comma. */
  ghost predicate AfterOpening(text: string, start: nat)
    requires start <= |text|
  {
    exists p :: 0 <= p < start && text[p] in [':', '[', ','] && forall k :: p < k < start ==> IsWhitespace(text[k])
  }

  /** After it, white space aside, stands a comma, a brace or a bracket, or nothing. */
  ghost predicate BeforeClosing(text: string, end: nat)
    requires end <= |text|
  {
    exists q :: ClosingAt(text, end, q)
  }

  ghost predicate ClosingAt(text: string, end: nat, q: int) {
    && end <= q <= |text| && (q < |text| ==> text[q] in [',', '}', ']'])
    && forall k :: end <= k < q ==> IsWhitespace(text[k])
  }

  /** A number token is a stretch of digits that stands where JSON has a value. */
  lemma {:induction false} NumberTokensExactly(text: string, start: nat, end: nat)
    requires start <= end <= |text|
    ensures IsJsonNumberToken(text, start, end) <==>
              && (forall k :: start <= k < end ==> '0' <= text[k] <= '9')
              && AfterOpening(text, start) && BeforeClosing(text, end)
  {
    OpeningIsLastSolid(text, start);
    ClosingIsFirstSolid(text, end);
  }

  lemma {:induction false} OpeningIsLastSolid(text: string, start: nat)
    requires start <= |text|
    ensures AfterOpening(text, start) <==> LastSolid(text[..start]) in {Some(':'), Some('['), Some(',')}
  {
    var before := text[..start];
    if AfterOpening(text, start) {
      var p :| 0 <= p < start && text[p] in [':', '[', ','] && forall k :: p < k < start ==> IsWhitespace(text[k]);
      assert before[p] == text[p] && !IsWhitespace(text[p]);
      LastSolidIs(before, p);
    }
    if LastSolid(before).Some? {
      var p := LastSolidStands(before);
      assert text[p] == before[p] && forall k :: p < k < start ==> text[k] == before[k];
    }
  }

  lemma {:induction false} ClosingIsFirstSolid(text: string, end: nat)
    requires end <= |text|
    ensures BeforeClosing(text, end) <==> FirstSolid(text[end..]) in {None, Some(','), Some('}'), Some(']')}
  {
    var after := text[end..];
    if BeforeClosing(text, end) {
      var q :| ClosingAt(text, end, q);
      assert forall k :: 0 <= k < |after| ==> after[k] == text[end + k];
      assert q < |text| ==> after[q - end] == text[q] && !IsWhitespace(text[q]);
      FirstSolidIs(after, q - end);
    }
    var p := FirstSolidStands(after);
    FirstSolidIs(after, p);
    if FirstSolid(after) in {None, Some(','), Some('}'), Some(']')} {
      var q := end + p;
      assert q < |text| ==> text[q] == after[p];
      forall k | end <= k < q ensures IsWhitespace(text[k]) {
        assert text[k] == after[k - end];
      }
      assert ClosingAt(text, end, q);
    }
  }

  function MaskChar(c: char): char { if IsDigit(c) then '*' else c }

  function MaskDigits(s: string): string { seq(|s|, i requires 0 <= i < |s| => MaskChar(s[i])) }

  function Quoted(s: string, quote: bool): string { if quote then ['"'] + s + ['"'] else s }

  /** The card that starts at a digit, if there is one. */
  function CardAt(text: string, i: nat): (card: Option<nat>)
    requires i <= |text|
    ensures card.Some? ==> i < card.value <= RunEnd(text, i)
  {
    var run := text[i..RunEnd(text, i)];
    BestEndIsLast(run, |run|);
    var best := BestEnd(run, |run|);
    if best.None? then None else Some(i + best.value)
  }

  datatype Masked = Masked(out: string, count: nat)

  /** Where the scan goes on, and what it puts out on the way. */
  function NextIndex(text: string, i: nat): (next: nat)
    requires i < |text|
    ensures i < next <= |text|
  {
    if !IsDigit(text[i]) then i + 1 else if CardAt(text, i).Some? then CardAt(text, i).value else RunEnd(text, i)
  }

  predicate StartsCard(text: string, i: nat)
    requires i < |text|
  {
    IsDigit(text[i]) && CardAt(text, i).Some?
  }

  function Emitted(text: string, json: bool, i: nat): string
    requires i < |text|
  {
    var next := NextIndex(text, i);
    if StartsCard(text, i) then Quoted(MaskDigits(text[i..next]), json && IsJsonNumberToken(text, i, next))
    else text[i..next]
  }

  function MaskFrom(text: string, json: bool, i: nat): Masked
    requires i <= |text|
    decreases |text| - i
  {
    if i == |text| then Masked([], 0)
    else
      var rest := MaskFrom(text, json, NextIndex(text, i));
      Masked(Emitted(text, json, i) + rest.out, rest.count + (if StartsCard(text, i) then 1 else 0))
  }

  function Mask(text: string, json: bool): Masked { MaskFrom(text, json, 0) }

  method MaskCards(text: string, json: bool) returns (out: string, count: nat)
    ensures Masked(out, count) == Mask(text, json)
  {
    hide MaskFrom, NextIndex, Emitted, StartsCard, BestEnd, RunEnd, Quoted, MaskDigits, IsJsonNumberToken, CardAt;
    MaskEnd(text, json);
    out, count := "", 0;
    var i := 0;
    assert "" + MaskFrom(text, json, 0).out == MaskFrom(text, json, 0).out;
    while i < |text|
      invariant 0 <= i <= |text|
      invariant Mask(text, json) == Masked(out + MaskFrom(text, json, i).out, count + MaskFrom(text, json, i).count)
      decreases |text| - i
    {
      MaskStep(text, json, i);
      Associate(out, Emitted(text, json, i), MaskFrom(text, json, NextIndex(text, i)).out);
      CaseOfStep(text, json, i);
      if !IsDigit(text[i]) {
        out := out + [text[i]];
        i := i + 1;
      } else {
        var end := CardRunEnd(text, i);
        RunHasNoOtherCharacters(text, i);
        var best := BestCardEnd(text[i..end]);
        if best.Some? {
          count := count + 1;
          var quote := json && IsJsonNumberToken(text, i, i + best.value);
          var masked := MaskDigits(text[i..i + best.value]);
          out := out + Quoted(masked, quote);
          i := i + best.value;
        } else {
          out := out + text[i..end];
          i := end;
        }
      }
    }
    assert out + [] == out;
  }

  lemma {:induction false} MaskStep(text: string, json: bool, i: nat)
    requires i < |text|
    ensures var rest := MaskFrom(text, json, NextIndex(text, i));
            MaskFrom(text, json, i) ==
            Masked(Emitted(text, json, i) + rest.out, rest.count + (if StartsCard(text, i) then 1 else 0))
  {}

  lemma {:induction false} MaskEnd(text: string, json: bool)
    ensures MaskFrom(text, json, |text|) == Masked([], 0)
  {}

  lemma {:induction false} Associate(a: string, b: string, c: string)
    ensures a + (b + c) == a + b + c
  {}

  lemma {:induction false} RunHasNoOtherCharacters(text: string, i: nat)
    requires i <= |text|
    ensures var run := text[i..RunEnd(text, i)]; forall k :: 0 <= k < |run| ==> IsDigit(run[k]) || IsSeparator(run[k])
  {
    var end := RunEnd(text, i);
    forall k | 0 <= k < end - i
      ensures IsDigit(text[i..end][k]) || IsSeparator(text[i..end][k])
    {
      assert InRun(text, i + k);
    }
  }

  /** What one turn of the loop does, case by case. */
  lemma {:induction false} CaseOfStep(text: string, json: bool, i: nat)
    requires i < |text|
    ensures !IsDigit(text[i]) ==>
              NextIndex(text, i) == i + 1 && Emitted(text, json, i) == [text[i]] && !StartsCard(text, i)
    ensures IsDigit(text[i]) ==>
              var end := RunEnd(text, i);
              var best := BestEnd(text[i..end], end - i);
              if best.None? then
                NextIndex(text, i) == end && Emitted(text, json, i) == text[i..end] && !StartsCard(text, i)
              else
                && 0 < best.value <= end - i && NextIndex(text, i) == i + best.value && StartsCard(text, i)
                && Emitted(text, json, i) ==
                   Quoted(MaskDigits(text[i..i + best.value]), json && IsJsonNumberToken(text, i, i + best.value))
  {
    hide MaskDigits, Quoted, IsJsonNumberToken, BestEnd;
    if IsDigit(text[i]) {
      BestEndIsLast(text[i..RunEnd(text, i)], RunEnd(text, i) - i);
    }
  }

  // ----- masking twice is masking once -------------------------------------------------------------------------

  lemma {:induction false} RunEndIs(text: string, start: nat, end: nat)
    requires start <= end <= |text| && !InRun(text, end) && forall k :: start <= k < end ==> InRun(text, k)
    ensures RunEnd(text, start) == end
  {}

  /** A digit can only come out first where a digit stood. */
  lemma {:induction false} FirstOut(text: string, json: bool, i: nat)
    requires i <= |text|
    ensures var out := MaskFrom(text, json, i).out; out != [] && IsDigit(out[0]) ==> i < |text| && IsDigit(text[i])
  {
    if i < |text| && !IsDigit(text[i]) {
      assert Emitted(text, json, i)[0] == text[i];
    }
  }

  /** Characters that are no digits are copied. */
  lemma {:induction false} CopyPlain(before: string, plain: string, after: string, json: bool)
    requires forall k :: 0 <= k < |plain| ==> !IsDigit(plain[k])
    ensures var text := before + plain + after; var rest := MaskFrom(text, json, |before| + |plain|);
            MaskFrom(text, json, |before|) == Masked(plain + rest.out, rest.count)
    decreases |plain|
  {
    hide NextIndex, Emitted, StartsCard, BestEnd, RunEnd;
    var text := before + plain + after;
    var rest := MaskFrom(text, json, |before| + |plain|);
    if plain == [] {
      assert plain + rest.out == rest.out;
    } else {
      var c, tail := plain[0], plain[1..];
      assert text == (before + [c]) + tail + after;
      CopyPlain(before + [c], tail, after, json);
      assert text[|before|] == c;
      CaseOfStep(text, json, |before|);
      assert [c] + (tail + rest.out) == plain + rest.out;
    }
  }

  /** A run that no card starts keeps its end and its cards, none, whatever precedes it. */
  lemma {:induction false} RunAgain(text: string, json: bool, i: nat, before: string)
    requires i < |text| && IsDigit(text[i]) && CardAt(text, i).None?
    ensures var run := text[i..RunEnd(text, i)];
            var again := before + run + MaskFrom(text, json, RunEnd(text, i)).out;
            && RunEnd(again, |before|) == |before| + |run|
            && CardAt(again, |before|).None?
  {
    var end := RunEnd(text, i);
    var run, rest := text[i..end], MaskFrom(text, json, end).out;
    var again := before + run + rest;
    forall k | |before| <= k < |before| + |run|
      ensures InRun(again, k)
    {
      var j := i + k - |before|;
      assert again[k] == text[j] && InRun(text, j);
      if !IsDigit(text[j]) {
        assert j + 1 < end;
        assert again[k + 1] == text[j + 1];
      }
    }
    AfterRun(text, json, end, before + run);
    RunEndIs(again, |before|, |before| + |run|);
    assert again[|before|..|before| + |run|] == run;
  }

  lemma {:induction false} AfterRun(text: string, json: bool, end: nat, before: string)
    requires end <= |text| && !InRun(text, end)
    ensures !InRun(before + MaskFrom(text, json, end).out, |before|)
  {
    if end < |text| {
      CopyOne(text, json, end);
      FirstOut(text, json, end + 1);
      hide MaskFrom;
      var out, next := MaskFrom(text, json, end).out, MaskFrom(text, json, end + 1).out;
      var all := before + out;
      assert all[|before|] == text[end];
      if next != [] {
        assert all[|before| + 1] == next[0];
      }
    }
  }

  lemma {:induction false} CopyOne(text: string, json: bool, i: nat)
    requires i < |text| && !IsDigit(text[i])
    ensures MaskFrom(text, json, i).out == [text[i]] + MaskFrom(text, json, i + 1).out
  {
    assert text[i..i + 1] == [text[i]];
  }

  lemma {:induction false} MaskedIsPlain(s: string, quote: bool)
    ensures forall k :: 0 <= k < |Quoted(MaskDigits(s), quote)| ==> !IsDigit(Quoted(MaskDigits(s), quote)[k])
  {}

  lemma {:induction false} ScanAgain(text: string, json: bool, json': bool, i: nat, before: string)
    requires i <= |text|
    ensures var out := MaskFrom(text, json, i).out; MaskFrom(before + out, json', |before|) == Masked(out, 0)
    decreases |text| - i
  {
    hide MaskFrom, NextIndex, Emitted, StartsCard, BestEnd, RunEnd, Quoted, MaskDigits, IsJsonNumberToken, CardAt;
    MaskEnd(text, json);
    MaskEnd(before, json');
    if i == |text| {
      assert before + [] == before;
    } else {
      MaskStep(text, json, i);
      CaseOfStep(text, json, i);
      CardAtIsBest(text, i);
      var piece, next := Emitted(text, json, i), NextIndex(text, i);
      var rest := MaskFrom(text, json, next).out;
      Associate(before, piece, rest);
      ScanAgain(text, json, json', next, before + piece);
      if StartsCard(text, i) {
        MaskedIsPlain(text[i..next], json && IsJsonNumberToken(text, i, next));
        CopyPlain(before, piece, rest, json');
      } else if !IsDigit(text[i]) {
        CopyPlain(before, piece, rest, json');
      } else {
        RunOnceMore(text, json, json', i, before);
      }
    }
  }

  lemma {:induction false} RunOnceMore(text: string, json: bool, json': bool, i: nat, before: string)
    requires i < |text| && IsDigit(text[i]) && CardAt(text, i).None?
    ensures var run := text[i..RunEnd(text, i)];
            var again := before + run + MaskFrom(text, json, RunEnd(text, i)).out;
            var rest := MaskFrom(again, json', |before| + |run|);
            MaskFrom(again, json', |before|) == Masked(run + rest.out, rest.count)
  {
    hide NextIndex, Emitted, StartsCard, BestEnd, RunEnd, CardAt, IsJsonNumberToken;
    RunAgain(text, json, i, before);
    var run := text[i..RunEnd(text, i)];
    var again := before + run + MaskFrom(text, json, RunEnd(text, i)).out;
    assert again[|before|] == text[i] && again[|before|..|before| + |run|] == run;
    CaseOfStep(again, json', |before|);
    CardAtIsBest(again, |before|);
  }

  lemma {:induction false} CardAtIsBest(text: string, i: nat)
    requires i <= |text|
    ensures CardAt(text, i).Some? <==> BestEnd(text[i..RunEnd(text, i)], RunEnd(text, i) - i).Some?
  {}

  /** What has been masked holds no card: a second pass changes nothing and counts nothing. */
  lemma {:induction false} MaskingIsIdempotent(text: string, json: bool, json': bool)
    ensures Mask(Mask(text, json).out, json') == Masked(Mask(text, json).out, 0)
  {
    ScanAgain(text, json, json', 0, []);
    assert [] + Mask(text, json).out == Mask(text, json).out;
  }

  /** A digit that continues no run: none stands before it, nor before a single separator before it. */
  predicate StartsRun(text: string, i: nat) {
    && i < |text| && IsDigit(text[i])
    && (i > 0 ==> !IsDigit(text[i - 1]))
    && (i > 1 && IsSeparator(text[i - 1]) ==> !IsDigit(text[i - 2]))
  }

  lemma {:induction false} RunStopsBefore(text: string, j: nat, i: nat)
    requires j < i < |text| && IsDigit(text[j]) && StartsRun(text, i)
    ensures RunEnd(text, j) <= i
  {
    var end := RunEnd(text, j);
    var before: nat, before': nat := i - 1, if i > 1 then i - 2 else 0;
    assert end > i ==> InRun(text, before) && (before > j ==> InRun(text, before'));
  }

  /** When nothing is counted no run starts with a card. */
  lemma {:induction false} NothingCountedMeansNoCard(text: string, json: bool, j: nat, i: nat)
    requires j <= i && StartsRun(text, i) && MaskFrom(text, json, j).count == 0
    ensures CardAt(text, i).None?
    decreases |text| - j
  {
    hide CardAt, RunEnd;
    if j < i {
      if !IsDigit(text[j]) {
        NothingCountedMeansNoCard(text, json, j + 1, i);
      } else {
        RunStopsBefore(text, j, i);
        NothingCountedMeansNoCard(text, json, RunEnd(text, j), i);
      }
    }
  }

  /** The scan misses no card: no run of the output, wherever it starts, starts with one. */
  lemma {:induction false} NoRunStartsWithACard(text: string, json: bool, i: nat)
    requires StartsRun(Mask(text, json).out, i)
    ensures CardAt(Mask(text, json).out, i).None?
  {
    MaskingIsIdempotent(text, json, json);
    NothingCountedMeansNoCard(Mask(text, json).out, json, 0, i);
  }

  /** A digit, or a space or hyphen between two characters of the stretch of which the second is a digit. */
  predicate LikeACard(out: string, i: nat, end: nat, k: nat) {
    && i <= k < end <= |out|
    && (|| '0' <= out[k] <= '9'
        || (out[k] in [' ', '-'] && i < k && k + 1 < end && '0' <= out[k + 1] <= '9'))
  }

  /**
   * The same in full: what starts where no run goes on, and is made of digits and of single spaces and hyphens between
   * them with no digit after it, is not a card in the output.
   */
  lemma {:induction false} NoCardIsLeft(text: string, json: bool, out: string, i: nat, end: nat)
    requires out == Mask(text, json).out && i < end <= |out|
    requires forall k :: i <= k < end ==> LikeACard(out, i, end, k)
    requires i > 0 ==> !('0' <= out[i - 1] <= '9')
    requires i > 1 && (out[i - 1] == ' ' || out[i - 1] == '-') ==> !('0' <= out[i - 2] <= '9')
    requires end < |out| ==> !('0' <= out[end] <= '9')
    ensures var ds := Digits(out[i..end]);
            13 <= |ds| <= 19 && PositionalSum(ds, |ds|) % 10 == 0 ==>
              forall a, b :: 0 <= a < b < |ds| ==> ds[a] == ds[b]
  {
    hide Digits, CardValid, PositionalSum, Mask;
    assert LikeACard(out, i, end, i) && LikeACard(out, i, end, end - 1);
    NoRunStartsWithACard(text, json, i);
    var stop := RunEnd(out, i);
    assert forall k :: LikeACard(out, i, end, k) ==> InRun(out, k);
    assert end <= stop;
    var run := out[i..stop];
    BestEndIsLast(run, |run|);
    assert !IsCardEnd(run, end - i);
    SliceOfSlice(out, i, end, stop);
    DigitsAreDigits(out[i..end]);
    CardsExactly(Digits(out[i..end]));
  }

  // ----- what masking changes ---------------------------------------------------------------------------------------

  datatype Region = Region(start: nat, end: nat)

  /** The stretches that the scan masks. */
  ghost function Regions(text: string, i: nat): seq<Region>
    requires i <= |text|
    decreases |text| - i
  {
    if i == |text| then []
    else (if StartsCard(text, i) then [Region(i, NextIndex(text, i))] else []) + Regions(text, NextIndex(text, i))
  }

  /** A valid card of 13 to 19 digits that no further digit follows. */
  ghost predicate IsCard(text: string, r: Region) {
    && r.start < r.end <= |text| && IsDigit(text[r.start]) && IsDigit(text[r.end - 1])
    && CardValid(Digits(text[r.start..r.end]))
    && (r.end == |text| || !IsDigit(text[r.end]))
    && forall k :: r.start <= k < r.end ==> IsDigit(text[k]) || IsSeparator(text[k])
  }

  lemma {:induction false} MaskedCardIsCard(text: string, i: nat)
    requires i < |text| && StartsCard(text, i)
    ensures IsCard(text, Region(i, NextIndex(text, i)))
  {
    hide Digits, CardValid;
    var end := RunEnd(text, i);
    var run := text[i..end];
    BestEndIsLast(run, |run|);
    RunHasNoOtherCharacters(text, i);
    var next := NextIndex(text, i);
    assert IsCardEnd(run, next - i);
    SliceOfSlice(text, i, next, end);
    if next < end {
      assert run[next - i] == text[next];
    }
    forall k | i <= k < next
      ensures IsDigit(text[k]) || IsSeparator(text[k])
    {
      assert InRun(text, k);
    }
  }

  lemma {:induction false} SliceOfSlice(s: string, a: nat, b: nat, c: nat)
    requires a <= b <= c <= |s|
    ensures s[a..c][..b - a] == s[a..b]
  {}

  /** Every region masked is a valid card, regions do not overlap, and there are as many as are counted. */
  lemma {:induction false} RegionsAreCards(text: string, json: bool, i: nat)
    requires i <= |text|
    ensures var regions := Regions(text, i);
            && |regions| == MaskFrom(text, json, i).count
            && (forall k :: 0 <= k < |regions| ==> i <= regions[k].start && IsCard(text, regions[k]))
            && (forall k :: 0 < k < |regions| ==> regions[k - 1].end <= regions[k].start)
    decreases |text| - i
  {
    hide IsCard, StartsCard, NextIndex, Emitted;
    if i < |text| {
      var next := NextIndex(text, i);
      RegionsAreCards(text, json, next);
      if StartsCard(text, i) {
        MaskedCardIsCard(text, i);
      }
    }
  }

  /** Every region is a card by its digits: their number, and their sum by position. */
  lemma {:induction false} RegionsPassTheCheck(text: string, k: nat)
    requires k < |Regions(text, 0)|
    ensures var r := Regions(text, 0)[k];
            && r.start < r.end <= |text|
            && var ds := Digits(text[r.start..r.end]);
               13 <= |ds| <= 19 && PositionalSum(ds, |ds|) % 10 == 0
    ensures var r := Regions(text, 0)[k];
            && r.start < r.end <= |text|
            && '0' <= text[r.start] <= '9' && '0' <= text[r.end - 1] <= '9'
            && (r.end < |text| ==> !('0' <= text[r.end] <= '9'))
            && forall j :: r.start <= j < r.end ==> '0' <= text[j] <= '9' || text[j] == ' ' || text[j] == '-'
  {
    hide Digits, CardValid, PositionalSum;
    RegionsAreCards(text, false, 0);
    var r := Regions(text, 0)[k];
    assert IsCard(text, r);
    DigitsAreDigits(text[r.start..r.end]);
    CardsExactly(Digits(text[r.start..r.end]));
  }

  ghost predicate Covers(regions: seq<Region>, k: nat) {
    exists j :: 0 <= j < |regions| && regions[j].start <= k < regions[j].end
  }

  lemma {:induction false} CoversCons(r: Region, regions: seq<Region>, k: nat)
    ensures Covers([r] + regions, k) <==> r.start <= k < r.end || Covers(regions, k)
  {
    var all := [r] + regions;
    if j :| 0 <= j < |regions| && regions[j].start <= k < regions[j].end {
      assert all[j + 1] == regions[j];
    }
    if r.start <= k < r.end {
      assert all[0] == r;
    }
    if Covers(all, k) {
      var j :| 0 <= j < |all| && all[j].start <= k < all[j].end;
      assert j > 0 ==> regions[j - 1] == all[j];
    }
  }

  /** Outside JSON the text keeps its length, and only the digits of masked cards change, to asterisks. */
  lemma {:induction false} OnlyCardDigitsChange(text: string, i: nat)
    requires i <= |text|
    ensures var out := MaskFrom(text, false, i).out;
            && |out| == |text| - i
            && forall k :: i <= k < |text| ==>
                out[k - i] == if Covers(Regions(text, i), k) && '0' <= text[k] <= '9' then '*' else text[k]
  {
    hide MaskFrom, Covers, Regions;
    MaskedByRegion(text, i);
  }

  lemma {:induction false} MaskedByRegion(text: string, i: nat)
    requires i <= |text|
    ensures var out := MaskFrom(text, false, i).out;
            && |out| == |text| - i
            && forall k :: i <= k < |text| ==>
                out[k - i] == if Covers(Regions(text, i), k) then MaskChar(text[k]) else text[k]
    decreases |text| - i
  {
    hide StartsCard, NextIndex, Covers;
    if i < |text| {
      var next := NextIndex(text, i);
      MaskedByRegion(text, next);
      RegionsAreCards(text, false, next);
      var rest, out := MaskFrom(text, false, next).out, MaskFrom(text, false, i).out;
      var piece := Emitted(text, false, i);
      assert |piece| == next - i;
      assert [] + Regions(text, next) == Regions(text, next);
      assert Regions(text, i) ==
             if StartsCard(text, i) then [Region(i, next)] + Regions(text, next) else Regions(text, next);
      forall k | i <= k < |text|
        ensures out[k - i] == if Covers(Regions(text, i), k) then MaskChar(text[k]) else text[k]
      {
        CoversCons(Region(i, next), Regions(text, next), k);
        if k >= next {
          assert out[k - i] == rest[k - next];
        } else {
          assert out[k - i] == piece[k - i] && text[i..next][k - i] == text[k];
          BeforeRegions(text, next, k);
        }
      }
    }
  }

  lemma {:induction false} BeforeRegions(text: string, i: nat, k: nat)
    requires i <= |text| && k < i
    ensures !Covers(Regions(text, i), k)
  {
    RegionsAreCards(text, false, i);
  }

  /** Regions from `at` on, in their order and without overlap. */
  ghost predicate Apart(regions: seq<Region>, at: nat, length: nat) {
    regions != [] ==> at <= regions[0].start < regions[0].end <= length && Apart(regions[1..], regions[0].end, length)
  }

  /** The text from `at` on, with quotation marks around each of the regions that is a JSON number. */
  ghost function Requoted(text: string, plain: string, regions: seq<Region>, at: nat): string
    requires at <= |text| == |plain| && Apart(regions, at, |text|)
    decreases |regions|
  {
    if regions == [] then plain[at..]
    else
      var r := regions[0];
      var card := plain[r.start..r.end];
      plain[at..r.start] + ((if IsJsonNumberToken(text, r.start, r.end) then ['"'] + card + ['"'] else card)
                            + Requoted(text, plain, regions[1..], r.end))
  }

  lemma {:induction false} RegionsAreApart(text: string, i: nat)
    requires i <= |text|
    ensures Apart(Regions(text, i), i, |text|)
    decreases |text| - i
  {
    hide StartsCard, NextIndex;
    if i < |text| {
      var next := NextIndex(text, i);
      RegionsAreApart(text, next);
      assert ([Region(i, next)] + Regions(text, next))[1..] == Regions(text, next);
      assert [] + Regions(text, next) == Regions(text, next);
    }
  }

  /** Text before the first region is taken over as it is. */
  lemma {:induction false} SkipPlain(text: string, plain: string, regions: seq<Region>, at: nat, next: nat)
    requires at <= next <= |text| == |plain| && Apart(regions, next, |text|)
    ensures Apart(regions, at, |text|)
    ensures Requoted(text, plain, regions, at) == plain[at..next] + Requoted(text, plain, regions, next)
  {
    hide IsJsonNumberToken;
    if regions == [] {
      Halves(plain, at, next, |plain|);
      assert plain[at..] == plain[at..|plain|] && plain[next..] == plain[next..|plain|];
    } else {
      var r := regions[0];
      Halves(plain, at, next, r.start);
      var card := plain[r.start..r.end];
      var marked := if IsJsonNumberToken(text, r.start, r.end) then ['"'] + card + ['"'] else card;
      Associate(plain[at..next], plain[next..r.start], marked + Requoted(text, plain, regions[1..], r.end));
    }
  }

  lemma {:induction false} Halves(s: string, a: nat, b: nat, c: nat)
    requires a <= b <= c <= |s|
    ensures s[a..c] == s[a..b] + s[b..c]
  {}

  /** In JSON the same cards are masked, and those that are number tokens, and nothing else, get quotation marks. */
  lemma {:induction false} JsonOnlyAddsQuotes(text: string)
    ensures Mask(text, true).count == Mask(text, false).count
    ensures |Mask(text, false).out| == |text| && Apart(Regions(text, 0), 0, |text|)
    ensures Mask(text, true).out == Requoted(text, Mask(text, false).out, Regions(text, 0), 0)
  {
    QuotesFrom(text, 0, []);
    assert [] + Mask(text, false).out == Mask(text, false).out;
  }

  lemma {:induction false} QuotesFrom(text: string, i: nat, before: string)
    requires |before| == i <= |text|
    ensures MaskFrom(text, true, i).count == MaskFrom(text, false, i).count
    ensures |before + MaskFrom(text, false, i).out| == |text| && Apart(Regions(text, i), i, |text|)
    ensures MaskFrom(text, true, i).out == Requoted(text, before + MaskFrom(text, false, i).out, Regions(text, i), i)
    decreases |text| - i
  {
    hide StartsCard, NextIndex, MaskDigits, IsJsonNumberToken, Quoted, CardAt, RunEnd, Requoted, Emitted, Apart;
    OnlyCardDigitsChange(text, i);
    RegionsAreApart(text, i);
    var plain := before + MaskFrom(text, false, i).out;
    if i == |text| {
      NothingToQuote(text, plain);
    } else {
      var next, piece := NextIndex(text, i), Emitted(text, false, i);
      var rest := MaskFrom(text, false, next).out;
      OnlyCardDigitsChange(text, next);
      RegionsAreApart(text, next);
      Associate(before, piece, rest);
      assert plain == before + piece + rest;
      QuotesFrom(text, next, before + piece);
      assert plain[i..next] == piece;
      QuotesStep(text, plain, i);
    }
  }

  lemma {:induction false} NothingToQuote(text: string, plain: string)
    requires |plain| == |text|
    ensures Apart([], |text|, |text|) && Requoted(text, plain, [], |text|) == []
  {}

  lemma {:induction false} QuotesStep(text: string, plain: string, i: nat)
    requires i < |text| == |plain| && plain[i..NextIndex(text, i)] == Emitted(text, false, i)
    requires Apart(Regions(text, i), i, |text|) && Apart(Regions(text, NextIndex(text, i)), NextIndex(text, i), |text|)
    ensures Requoted(text, plain, Regions(text, i), i) ==
            Emitted(text, true, i) + Requoted(text, plain, Regions(text, NextIndex(text, i)), NextIndex(text, i))
  {
    hide StartsCard, NextIndex, MaskDigits, IsJsonNumberToken, CardAt, RunEnd, Requoted;
    var next := NextIndex(text, i);
    var regions := Regions(text, next);
    if StartsCard(text, i) {
      var all := [Region(i, next)] + regions;
      assert Regions(text, i) == all && all[1..] == regions;
      RequoteFirst(text, plain, all);
    } else {
      assert Regions(text, i) == [] + regions == regions;
      SkipPlain(text, plain, regions, i, next);
    }
  }

  lemma {:induction false} RequoteFirst(text: string, plain: string, regions: seq<Region>)
    requires |text| == |plain| && regions != [] && Apart(regions, regions[0].start, |text|)
    ensures var r := regions[0];
            Requoted(text, plain, regions, r.start) ==
            Quoted(plain[r.start..r.end], IsJsonNumberToken(text, r.start, r.end))
            + Requoted(text, plain, regions[1..], r.end)
  {
    hide IsJsonNumberToken;
    var r := regions[0];
    var card := plain[r.start..r.end];
    var marked := if IsJsonNumberToken(text, r.start, r.end) then ['"'] + card + ['"'] else card;
    assert plain[r.start..r.start] + (marked + Requoted(text, plain, regions[1..], r.end)) ==
           marked + Requoted(text, plain, regions[1..], r.end);
  }
}
