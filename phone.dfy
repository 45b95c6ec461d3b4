/** `normalizePhone` of the server: keeps only the digits of a phone number. */
module Phone {
  import opened Wrappers
  import opened JsString

  predicate IsDigit(c: char) { '0' <= c <= '9' }

  predicate AllDigits(s: string) {
    forall i :: 0 <= i < |s| ==> IsDigit(s[i])
  }

  /** `s.replace(/\D/g, "")`: the digits of `s`, in order. */
  function Digits(s: string): (r: string)
    ensures AllDigits(r)
    ensures |r| <= |s|
    decreases |s|
  {
    if s == [] then []
    else if IsDigit(s[0]) then [s[0]] + Digits(s[1..])
    else Digits(s[1..])
  }

  /** `normalizePhone(raw)`. */
  function NormalizePhone(raw: Option<string>): string {
    Digits(Coerce(raw))
  }

  /** `a` can be obtained from `b` by deleting characters. */
  predicate IsSubsequence(a: string, b: string)
    decreases |b|
  {
    if a == [] then true
    else if b == [] then false
    else if a[0] == b[0] then IsSubsequence(a[1..], b[1..])
    else IsSubsequence(a, b[1..])
  }

  /** A string made only of digits is its own digit string. */
  lemma {:induction false} DigitsOfDigits(s: string)
    requires AllDigits(s)
    ensures Digits(s) == s
    decreases |s|
  {
    if s != [] {
      DigitsOfDigits(s[1..]);
      assert [s[0]] + s[1..] == s;
    }
  }

  /** The digits are kept in their original order. */
  lemma {:induction false} DigitsSubsequence(s: string)
    ensures IsSubsequence(Digits(s), s)
    decreases |s|
  {
    if s != [] {
      DigitsSubsequence(s[1..]);
      if IsDigit(s[0]) {
        assert Digits(s)[1..] == Digits(s[1..]);
      } else {
        assert Digits(s) != [] ==> IsDigit(Digits(s)[0]);
      }
    }
  }

  /** Every digit of `s` is kept as often as it occurs, and nothing else is. */
  lemma {:induction false} DigitsCount(s: string, c: char)
    ensures multiset(Digits(s))[c] == if IsDigit(c) then multiset(s)[c] else 0
    decreases |s|
  {
    if s != [] {
      DigitsCount(s[1..], c);
      assert s == [s[0]] + s[1..];
      assert multiset(s) == multiset([s[0]]) + multiset(s[1..]);
      if IsDigit(s[0]) {
        assert multiset(Digits(s)) == multiset([s[0]]) + multiset(Digits(s[1..]));
      }
    }
  }

  /** The digits of a concatenation are the concatenation of the digits. */
  lemma {:induction false} DigitsConcat(a: string, b: string)
    ensures Digits(a + b) == Digits(a) + Digits(b)
    decreases |a|
  {
    if a != [] {
      assert (a + b)[0] == a[0];
      assert (a + b)[1..] == a[1..] + b;
      DigitsConcat(a[1..], b);
    } else {
      assert a + b == b;
    }
  }

  /** `normalizePhone` gives only digits, is no longer than its input, keeps
      each digit of the input as often as it occurs and in order, and
      normalising its result again changes nothing. */
  lemma NormalizePhoneSpec(raw: Option<string>)
    ensures AllDigits(NormalizePhone(raw))
    ensures |NormalizePhone(raw)| <= |Coerce(raw)|
    ensures IsSubsequence(NormalizePhone(raw), Coerce(raw))
    ensures forall c :: multiset(NormalizePhone(raw))[c] == if IsDigit(c) then multiset(Coerce(raw))[c] else 0
    ensures NormalizePhone(Some(NormalizePhone(raw))) == NormalizePhone(raw)
  {
    var s := Coerce(raw);
    DigitsSubsequence(s);
    forall c ensures multiset(Digits(s))[c] == if IsDigit(c) then multiset(s)[c] else 0 {
      DigitsCount(s, c);
    }
    DigitsOfDigits(Digits(s));
  }

  /** Punctuation and spaces are dropped from a formatted number. */
  lemma NormalizePhoneExample()
    ensures NormalizePhone(Some("(11) 98888-7777")) == "11988887777"
  {
    ExamplePhoneSplit();
    DigitsConcat("(11) " + "98888", "-7777");
    DigitsConcat("(11) ", "98888");
    ExamplePhonePieces();
    DigitsOfDigits("98888");
    ExamplePhoneJoin();
  }

  lemma ExamplePhoneSplit()
    ensures "(11) 98888-7777" == "(11) " + "98888" + "-7777"
  {
  }

  lemma ExamplePhonePieces()
    ensures Digits("(11) ") == "11" && Digits("-7777") == "7777" && AllDigits("98888")
  {
  }

  lemma ExamplePhoneJoin()
    ensures "11" + "98888" + "7777" == "11988887777"
  {
  }
}
