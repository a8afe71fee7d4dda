/** Phone-number cleaning and masking shared by the sign-up form
    (frontend/src/components/SignUpBox.tsx) and the phone input
    (frontend/src/components/PhoneNumberInput/PhoneNumberInput.tsx). Both
    files carry the same wrapPhoneNumber and the same two-step cleaning: drop
    every character that is not 0-9, then replace the first run of eleven or
    more digits by the first ten digits. */
module PhoneFormat {
  import opened Common

  predicate IsDigit(c: char)
  {
    '0' <= c <= '9'
  }

  predicate AllDigits(s: string)
  {
    forall i :: 0 <= i < |s| ==> IsDigit(s[i])
  }

  /** replaceAll(/[^0-9]/g, ""): the digits of s, in order. */
  function KeepDigits(s: string): (r: string)
    ensures AllDigits(r) && |r| <= |s|
  {
    if s == [] then [] else (if IsDigit(s[0]) then [s[0]] else []) + KeepDigits(s[1..])
  }

  lemma {:induction false} KeepDigitsAppend(a: string, b: string)
    ensures KeepDigits(a + b) == KeepDigits(a) + KeepDigits(b)
  {
    if a == [] {
      assert a + b == b;
    } else {
      assert (a + b)[0] == a[0];
      assert (a + b)[1..] == a[1..] + b;
      KeepDigitsAppend(a[1..], b);
    }
  }

  /** A digit string is its own digits. */
  lemma {:induction false} KeepDigitsOfDigits(s: string)
    requires AllDigits(s)
    ensures KeepDigits(s) == s
  {
    if s != [] {
      KeepDigitsOfDigits(s[1..]);
    }
  }

  /** The length of the run of digits that starts at position i. */
  function RunLength(s: string, i: nat): (n: nat)
    requires i <= |s|
    ensures n <= |s| - i
    decreases |s| - i
  {
    if i == |s| || !IsDigit(s[i]) then 0 else 1 + RunLength(s, i + 1)
  }

  /** Where /\d{11,}/ first matches at or after i: the leftmost position
      that starts eleven or more digits. */
  function FirstLongRun(s: string, i: nat): (r: Option<nat>)
    requires i <= |s|
    ensures r.Some? ==> i <= r.value <= |s| && RunLength(s, r.value) >= 11
    ensures r.None? ==> forall j :: i <= j <= |s| ==> RunLength(s, j) < 11
    decreases |s| - i
  {
    if i == |s| then None
    else if RunLength(s, i) >= 11 then Some(i)
    else FirstLongRun(s, i + 1)
  }

  /** String.replace with /\d{11,}/ (not global): the first match, taken
      greedily to the end of its run, is replaced. */
  function ReplaceFirstLongRun(s: string, replacement: string): string
  {
    match FirstLongRun(s, 0)
    case None => s
    case Some(j) => s[..j] + replacement + s[j + RunLength(s, j)..]
  }

  /** slice(0, n). */
  function Take(s: string, n: nat): string
  {
    if |s| <= n then s else s[..n]
  }

  /** removeBlacklistCharacters; handlePhoneNumber computes the same value. */
  function RemoveBlacklistCharacters(raw: string): string
  {
    var stripped := KeepDigits(raw);
    ReplaceFirstLongRun(stripped, Take(stripped, 10))
  }

  lemma {:induction false} DigitsRunLength(s: string, i: nat)
    requires AllDigits(s) && i <= |s|
    ensures RunLength(s, i) == |s| - i
    decreases |s| - i
  {
    if i < |s| {
      DigitsRunLength(s, i + 1);
    }
  }

  /** The cleaned number is the first ten digits of the input, or all of them
      when there are fewer: digits only, at most ten, in input order. */
  lemma RemoveBlacklistMeaning(raw: string)
    ensures RemoveBlacklistCharacters(raw) == Take(KeepDigits(raw), 10)
    ensures AllDigits(RemoveBlacklistCharacters(raw))
    ensures |RemoveBlacklistCharacters(raw)| == if |KeepDigits(raw)| < 10 then |KeepDigits(raw)| else 10
  {
    var stripped := KeepDigits(raw);
    DigitsRunLength(stripped, 0);
    if |stripped| >= 11 {
      assert FirstLongRun(stripped, 0) == Some(0);
      assert stripped[0 + |stripped|..] == [];
      assert stripped[..0] == [];
    } else {
      assert FirstLongRun(stripped, 0).None?;
    }
  }

  /** Cleaning a cleaned number changes nothing. */
  lemma RemoveBlacklistIdempotent(raw: string)
    ensures RemoveBlacklistCharacters(RemoveBlacklistCharacters(raw)) == RemoveBlacklistCharacters(raw)
  {
    var once := RemoveBlacklistCharacters(raw);
    RemoveBlacklistMeaning(raw);
    RemoveBlacklistMeaning(once);
    KeepDigitsOfDigits(once);
  }

  /** wrapPhoneNumber: "(XXX)-XXX-XXXX" for ten characters, "" otherwise. */
  function WrapPhoneNumber(s: string): (r: string)
    ensures |s| != 10 ==> r == ""
    ensures |s| == 10 ==> |r| == 14
  {
    if |s| != 10 then "" else "(" + s[0..3] + ")-" + s[3..6] + "-" + s[6..10]
  }

  /** The input field's pattern ^\([0-9]{3}\)-[0-9]{3}-[0-9]{4}$. */
  predicate MatchesPhonePattern(t: string)
  {
    && |t| == 14
    && t[0] == '(' && AllDigits(t[1..4]) && t[4] == ')' && t[5] == '-'
    && AllDigits(t[6..9]) && t[9] == '-' && AllDigits(t[10..14])
  }

  /** Wrapping ten digits matches the field's pattern. */
  lemma WrapMatchesPattern(d: string)
    requires AllDigits(d) && |d| == 10
    ensures MatchesPhonePattern(WrapPhoneNumber(d))
  {
    var t := WrapPhoneNumber(d);
    assert t[1..4] == d[0..3];
    assert t[6..9] == d[3..6];
    assert t[10..14] == d[6..10];
  }

  /** Wrapping ten characters adds only the mask's punctuation: the digits
      of the wrapped string are the digits of the input. */
  lemma WrapKeepsDigits(s: string)
    requires |s| == 10
    ensures KeepDigits(WrapPhoneNumber(s)) == KeepDigits(s)
  {
    var a, b, c := s[0..3], s[3..6], s[6..10];
    assert WrapPhoneNumber(s) == "(" + a + ")-" + b + "-" + c;
    KeepDigitsMask(a, b, c);
    assert s == (a + b) + c;
    KeepDigitsAppend(a, b);
    KeepDigitsAppend(a + b, c);
  }

  /** The mask's punctuation contributes no digits. */
  lemma {:induction false} KeepDigitsMask(a: string, b: string, c: string)
    ensures KeepDigits("(" + a + ")-" + b + "-" + c) == KeepDigits(a) + KeepDigits(b) + KeepDigits(c)
  {
    var p1 := "(" + a;
    var p3 := p1 + ")-" + b;
    KeepDigitsSkip(p3, "-", c);
    KeepDigitsSkip(p1, ")-", b);
    KeepDigitsSkip([], "(", a);
    assert [] + "(" + a == p1;
    assert KeepDigits([]) == [];
    KeepDigitsAppend(p1, b);
    KeepDigitsAppend(p3, c);
  }

  /** Characters that are not digits drop out between x and y. */
  lemma KeepDigitsSkip(x: string, punct: string, y: string)
    requires punct == "(" || punct == ")-" || punct == "-"
    ensures KeepDigits(x + punct + y) == KeepDigits(x) + KeepDigits(y)
  {
    KeepDigitsAppend(x, punct);
    KeepDigitsAppend(x + punct, y);
    assert KeepDigits(punct) == [];
  }

  /** The digits of a wrapped number are the number. */
  lemma StripUndoesWrap(d: string)
    requires AllDigits(d) && |d| == 10
    ensures KeepDigits(WrapPhoneNumber(d)) == d
    ensures RemoveBlacklistCharacters(WrapPhoneNumber(d)) == d
  {
    WrapKeepsDigits(d);
    KeepDigitsOfDigits(d);
    RemoveBlacklistMeaning(WrapPhoneNumber(d));
  }

  /** Every string the pattern accepts is the wrapping of its ten digits. */
  lemma PatternIsWrap(t: string)
    requires MatchesPhonePattern(t)
    ensures |KeepDigits(t)| == 10 && t == WrapPhoneNumber(KeepDigits(t))
  {
    var d := t[1..4] + t[6..9] + t[10..14];
    assert AllDigits(d);
    assert t == "(" + t[1..4] + ")-" + t[6..9] + "-" + t[10..14];
    assert t == WrapPhoneNumber(d);
    StripUndoesWrap(d);
  }
}

/** The sign-up form's phone field (frontend/src/components/SignUpBox.tsx). */
module SignUpBox {
  import opened PhoneFormat

  /** changePhoneNumber: the new field state for a typed value. */
  function ChangePhoneNumber(raw: string): (state: string)
    ensures |KeepDigits(raw)| >= 10 ==>
      state == WrapPhoneNumber(Take(KeepDigits(raw), 10)) && MatchesPhonePattern(state)
    ensures |KeepDigits(raw)| < 10 ==> state == KeepDigits(raw) && |state| < 10
  {
    RemoveBlacklistMeaning(raw);
    var limited := RemoveBlacklistCharacters(raw);
    if |limited| == 10 then
      WrapMatchesPattern(limited);
      WrapPhoneNumber(limited)
    else
      limited
  }

  /** Retyping the field's own state leaves it unchanged. */
  lemma ChangePhoneNumberIdempotent(raw: string)
    ensures ChangePhoneNumber(ChangePhoneNumber(raw)) == ChangePhoneNumber(raw)
  {
    var state := ChangePhoneNumber(raw);
    RemoveBlacklistMeaning(raw);
    if |KeepDigits(raw)| >= 10 {
      var d := Take(KeepDigits(raw), 10);
      StripUndoesWrap(d);
    } else {
      KeepDigitsOfDigits(state);
    }
  }
}

/** The standalone phone input
    (frontend/src/components/PhoneNumberInput/PhoneNumberInput.tsx): the
    state holds bare digits and the field shows them masked once there are
    ten. */
module PhoneNumberInput {
  import opened PhoneFormat

  /** handlePhoneNumber: the new state for a typed value. */
  function HandlePhoneNumber(raw: string): (state: string)
    ensures AllDigits(state) && |state| <= 10
    ensures state == Take(KeepDigits(raw), 10)
  {
    RemoveBlacklistMeaning(raw);
    RemoveBlacklistCharacters(raw)
  }

  /** The value the field shows for a state: always the state's digits, and
      for a digit state it satisfies the field's pattern exactly when the
      number is complete. */
  function DisplayedValue(state: string): (shown: string)
    ensures KeepDigits(shown) == KeepDigits(state)
    ensures AllDigits(state) ==> (MatchesPhonePattern(shown) <==> |state| == 10)
  {
    if |state| == 10 then
      WrapKeepsDigits(state);
      if AllDigits(state) then WrapMatchesPattern(state); WrapPhoneNumber(state)
      else WrapPhoneNumber(state)
    else
      state
  }

  /** A full number is shown in the field's pattern, and any edit of what is
      shown that keeps the same digits gives back the same state. */
  lemma EditRestoresState(state: string, edited: string)
    requires AllDigits(state) && |state| == 10
    requires KeepDigits(edited) == state
    ensures MatchesPhonePattern(DisplayedValue(state))
    ensures HandlePhoneNumber(DisplayedValue(state)) == state
    ensures HandlePhoneNumber(edited) == state
  {
    WrapMatchesPattern(state);
    StripUndoesWrap(state);
  }
}
