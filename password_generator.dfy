/**
 * The password generation engine of the Password Generator page: the four
 * alphabets, the random-number helper, the class-length plan, the character
 * draws, the array shuffle repeated one or two times, and the page state that
 * the generate and option handlers update.
 *
 * The page draws its random numbers from a cryptographic byte source, four
 * bytes read as an unsigned little-endian 32-bit word per draw. Here that
 * source is a `Tape`: an arbitrary infinite sequence of 32-bit words, and every
 * operation that draws takes the tape and the position of its next unused word
 * and returns the position after its last one. Every property proved below
 * holds for every tape.
 */
module PasswordGen {
  import opened Wrappers
  import opened JsString

  /** One draw of the random source: an unsigned 32-bit word. */
  type Word = u: int | 0 <= u < 0x1_0000_0000

  /** The random source, one word per position. */
  type Tape = nat -> Word

  // ---------------------------------------------------------------------------
  // Alphabets
  // ---------------------------------------------------------------------------

  const LowerAlphabets: string := "abcdefghijklmnopqrstuvwxyz"
  const UpperAlphabets: string := "ABCDEFGHIJKLMNOPQRSTUVWXYZ"
  const Numbers: string := "0123456789"
  const SpecialCharsURL: string := "$-_.+!*'(),"
  /** The URL-safe specials followed by the rest; the second `~` repeats one already there. */
  const SpecialChars: string := "$-_.+!*'(),~@#%^&=~{}[]:;\"<>?/|\\"

  /** The ambiguous-free alphabets, each made by removing a first occurrence. */
  const LowerAlphabetsNoAmbiguous: string := ReplaceFirst(LowerAlphabets, "l", "")
  const UpperAlphabetsNoAmbiguous: string := ReplaceFirst(ReplaceFirst(UpperAlphabets, "I", ""), "O", "")
  const NumericNoAmbiguous: string := ReplaceFirst(ReplaceFirst(Numbers, "0", ""), "1", "")

  predicate IsLower(c: char) { 'a' <= c <= 'z' }
  predicate IsUpper(c: char) { 'A' <= c <= 'Z' }
  predicate IsDigit(c: char) { '0' <= c <= '9' }
  predicate IsSpecial(c: char) { c in SpecialChars }

  /** The characters that ambiguity avoidance leaves out. */
  predicate IsAmbiguous(c: char) { c == 'l' || c == 'I' || c == 'O' || c == '0' || c == '1' }

  /** No character occurs twice. */
  predicate Distinct(s: string) {
    forall i, j :: 0 <= i < j < |s| ==> s[i] != s[j]
  }

  /** Removing the first occurrence of a character from a string of distinct characters removes exactly that character. */
  lemma {:induction false} RemoveDistinct(s: string, c: char)
    requires Distinct(s) && c in s
    ensures Distinct(ReplaceFirst(s, [c], []))
    ensures forall x :: x in ReplaceFirst(s, [c], []) <==> x in s && x != c
    decreases |s|
  {
    var r := ReplaceFirst(s, [c], []);
    if s[0] == c {
      assert [c] <= s;
      assert r == s[1..];
      forall x | x in s[1..] ensures x != c {
        var k :| 0 <= k < |s[1..]| && s[1..][k] == x;
        assert s[k + 1] == x;
      }
    } else {
      assert !([c] <= s);
      assert c in s[1..] by {
        var k :| 0 <= k < |s| && s[k] == c;
        assert s[1..][k - 1] == c;
      }
      RemoveDistinct(s[1..], c);
      var r' := ReplaceFirst(s[1..], [c], []);
      assert r == [s[0]] + r';
      forall x | x in r' ensures x != s[0] {
        var k :| 0 <= k < |s[1..]| && s[1..][k] == x;
        assert s[k + 1] == x;
      }
      forall i, j | 0 <= i < j < |r| ensures r[i] != r[j] {
        assert r[j] == r'[j - 1] && r'[j - 1] in r';
        if i > 0 {
          assert r[i] == r'[i - 1];
        }
      }
      forall x | x in s ensures x in r <==> x != c {
        var k :| 0 <= k < |s| && s[k] == x;
        if k > 0 {
          assert s[1..][k - 1] == x;
        }
      }
    }
  }

  lemma LowerAlphabetsAreTheLetters()
    ensures Distinct(LowerAlphabets)
    ensures forall x :: x in LowerAlphabets <==> IsLower(x)
  {
    assert forall i :: 0 <= i < 26 ==> LowerAlphabets[i] as int == 'a' as int + i;
    forall x | IsLower(x) ensures x in LowerAlphabets {
      assert LowerAlphabets[x as int - 'a' as int] == x;
    }
  }

  lemma UpperAlphabetsAreTheLetters()
    ensures Distinct(UpperAlphabets)
    ensures forall x :: x in UpperAlphabets <==> IsUpper(x)
  {
    assert forall i :: 0 <= i < 26 ==> UpperAlphabets[i] as int == 'A' as int + i;
    forall x | IsUpper(x) ensures x in UpperAlphabets {
      assert UpperAlphabets[x as int - 'A' as int] == x;
    }
  }

  lemma NumbersAreTheDigits()
    ensures Distinct(Numbers)
    ensures forall x :: x in Numbers <==> IsDigit(x)
  {
    assert forall i :: 0 <= i < 10 ==> Numbers[i] as int == '0' as int + i;
    forall x | IsDigit(x) ensures x in Numbers {
      assert Numbers[x as int - '0' as int] == x;
    }
  }

  lemma LowerNoAmbiguousLetters()
    ensures forall x :: x in LowerAlphabetsNoAmbiguous <==> IsLower(x) && x != 'l'
  {
    LowerAlphabetsAreTheLetters();
    RemoveDistinct(LowerAlphabets, 'l');
  }

  lemma UpperNoAmbiguousLetters()
    ensures forall x :: x in UpperAlphabetsNoAmbiguous <==> IsUpper(x) && x != 'I' && x != 'O'
  {
    UpperAlphabetsAreTheLetters();
    RemoveTwoDistinct(UpperAlphabets, 'I', 'O');
  }

  lemma NumericNoAmbiguousDigits()
    ensures forall x :: x in NumericNoAmbiguous <==> IsDigit(x) && x != '0' && x != '1'
  {
    NumbersAreTheDigits();
    RemoveTwoDistinct(Numbers, '0', '1');
  }

  lemma RemoveTwoDistinct(s: string, c: char, d: char)
    requires Distinct(s) && c in s && d in s && c != d
    ensures forall x :: x in ReplaceFirst(ReplaceFirst(s, [c], []), [d], []) <==> x in s && x != c && x != d
  {
    RemoveDistinct(s, c);
    RemoveDistinct(ReplaceFirst(s, [c], []), d);
  }

  /** The full special set is the URL-safe set extended by the remaining symbols. */
  lemma SpecialCharsExtendURL()
    ensures SpecialChars == SpecialCharsURL + "~@#%^&=~{}[]:;\"<>?/|\\"
    ensures |SpecialChars| == 32
  {
  }

  /** No special character is a letter or a digit, and the URL-safe ones are among them. */
  lemma SpecialsAreNotAlphanumeric()
    ensures forall x :: x in SpecialChars ==> !IsLower(x) && !IsUpper(x) && !IsDigit(x)
    ensures forall x :: x in SpecialCharsURL ==> x in SpecialChars
    ensures '\n' !in SpecialChars
  {
    assert forall i :: 0 <= i < |SpecialChars| ==> !IsLower(SpecialChars[i]) && !IsUpper(SpecialChars[i]) && !IsDigit(SpecialChars[i]) && SpecialChars[i] != '\n';
    forall x | x in SpecialCharsURL ensures x in SpecialChars {
      var k :| 0 <= k < |SpecialCharsURL| && SpecialCharsURL[k] == x;
      assert SpecialChars[k] == x;
    }
  }

  // ---------------------------------------------------------------------------
  // Random numbers
  // ---------------------------------------------------------------------------

  /**
   * `generateNumber(min, max)` for integer bounds, given the drawn word `u`:
   * `min` when the bounds are equal, otherwise `floor(u / 2^32 * (max - min)) + min`.
   * (Division by a positive divisor in Dafny rounds down, like `Math.floor`.)
   */
  function GenerateNumber(u: Word, min: int, max: int): (r: int)
    ensures min == max ==> r == min
    ensures min < max ==> min <= r < max
    ensures max < min ==> max <= r <= min
  {
    if min == max then min
    else
      ScaleBounds(u, max - min);
      Times(u, max - min) / 0x1_0000_0000 + min
  }

  /**
   * `u * k`, written as repeated addition so that a formula mentioning it stays
   * linear until the product is unfolded on purpose.
   */
  function Times(u: int, k: int): int
    decreases if k < 0 then -k else k
  {
    if k == 0 then 0
    else if k > 0 then Times(u, k - 1) + u
    else Times(u, k + 1) - u
  }

  lemma {:induction false} TimesIsProduct(u: int, k: int)
    ensures Times(u, k) == u * k
    decreases if k < 0 then -k else k
  {
    if k > 0 {
      TimesIsProduct(u, k - 1);
    } else if k < 0 {
      TimesIsProduct(u, k + 1);
    }
  }

  /** `generateNumber` for distinct bounds is the floor of the scaled word, as in the page. */
  lemma GenerateNumberIsScaledFloor(u: Word, min: int, max: int)
    requires min != max
    ensures GenerateNumber(u, min, max) == u * (max - min) / 0x1_0000_0000 + min
  {
    TimesIsProduct(u, max - min);
  }

  /** Scaling a word by `k` and dividing by 2^32 lands between 0 and `k`, excluding `k` itself when it is positive. */
  lemma ScaleBounds(u: Word, k: int)
    ensures k > 0 ==> 0 <= Times(u, k) / 0x1_0000_0000 < k
    ensures k < 0 ==> k <= Times(u, k) / 0x1_0000_0000 <= 0
  {
    TimesIsProduct(u, k);
    MulBounds(u, 0xFFFF_FFFF, k);
    if k > 0 {
      assert 0 <= u * k <= 0xFFFF_FFFF * k;
    } else if k < 0 {
      assert 0xFFFF_FFFF * k <= u * k <= 0;
    }
  }

  lemma MulBounds(u: nat, c: nat, k: int)
    requires u <= c
    ensures k >= 0 ==> 0 <= u * k <= c * k
    ensures k < 0 ==> c * k <= u * k <= 0
  {
    if k >= 0 {
      assert (c - u) * k >= 0;
    } else {
      assert (c - u) * (-k) >= 0;
    }
  }

  /** A `generateNumber` call made at position `pos`: it uses a word only when the bounds differ. */
  function Draw(t: Tape, pos: nat, min: int, max: int): (int, nat) {
    if min == max then (min, pos) else (GenerateNumber(t(pos), min, max), pos + 1)
  }

  function Min(a: int, b: int): int { if a <= b then a else b }

  /** The number of iterations of `for (i = 0; i < n; i++)`. */
  function Clamp(n: int): nat { if n < 0 then 0 else n }

  // ---------------------------------------------------------------------------
  // Password settings and the length plan
  // ---------------------------------------------------------------------------

  datatype Options = Options(
    passwordLength: int,
    minimumNumbers: int,
    minimumSpecials: int,
    isUppercase: bool,
    isLowercase: bool,
    isNumber: bool,
    isSpecial: bool,
    isSpecialURL: bool,
    avoidAmbiguous: bool)

  datatype Lengths = Lengths(num: int, special: int, upper: int, lower: int)

  /**
   * The four class lengths, drawn in the page's order: numbers, specials, then
   * the split of the remainder between upper and lower case.
   */
  function Plan(o: Options, t: Tape, pos: nat): (r: (Lengths, nat))
    ensures pos <= r.1 <= pos + 3
    ensures !o.isNumber ==> r.0.num == 0
    ensures !o.isSpecial ==> r.0.special == 0
    ensures !o.isUppercase ==> r.0.upper == 0
    ensures !o.isLowercase ==> r.0.lower == 0
    ensures (o.isUppercase || o.isLowercase) ==>
      r.0.num + r.0.special + r.0.upper + r.0.lower == o.passwordLength
  {
    var minNum := if o.isNumber then o.minimumNumbers else 0;
    var maxNum := if o.isNumber then o.passwordLength - (if o.isSpecial then o.minimumSpecials else 0) - 3 else 0;
    var num := Draw(t, pos, minNum, maxNum);
    var numLength := num.0;
    var minSpecial := if o.isSpecial then o.minimumSpecials else 0;
    var maxSpecial := if o.isSpecial then o.passwordLength - (if o.isNumber then numLength else 0) - 3 else 0;
    var special := Draw(t, num.1, minSpecial, maxSpecial);
    var specialLength := special.0;
    var remainder := o.passwordLength - numLength - specialLength;
    var cut := if o.isUppercase && o.isLowercase then Draw(t, special.1, 1, Min(remainder, remainder - 2)) else (0, special.1);
    var upperLength := if o.isUppercase then remainder - cut.0 else 0;
    var lowerLength := if o.isLowercase then remainder - upperLength else 0;
    (Lengths(numLength, specialLength, upperLength, lowerLength), cut.1)
  }

  /** Settings under which every minimum can be met. */
  predicate Sensible(o: Options) {
    o.isUppercase && o.isLowercase && o.isNumber && o.isSpecial &&
    0 <= o.minimumNumbers && 0 <= o.minimumSpecials &&
    o.minimumNumbers + o.minimumSpecials + 3 <= o.passwordLength
  }

  /** With sensible settings the plan gives every class at least its minimum: two upper case and one lower case letter. */
  lemma PlanMeetsMinimums(o: Options, t: Tape, pos: nat)
    requires Sensible(o)
    ensures var l := Plan(o, t, pos).0;
      l.num >= o.minimumNumbers && l.special >= o.minimumSpecials && l.upper >= 2 && l.lower >= 1
  {
  }

  // ---------------------------------------------------------------------------
  // Character draws
  // ---------------------------------------------------------------------------

  function NumberAlphabet(o: Options): string { if o.avoidAmbiguous then NumericNoAmbiguous else Numbers }
  function SpecialAlphabet(o: Options): string { if o.isSpecialURL then SpecialCharsURL else SpecialChars }
  function UpperAlphabet(o: Options): string { if o.avoidAmbiguous then UpperAlphabetsNoAmbiguous else UpperAlphabets }
  function LowerAlphabet(o: Options): string { if o.avoidAmbiguous then LowerAlphabetsNoAmbiguous else LowerAlphabets }

  /** The four alphabets one run draws from. */
  datatype Alphabets = Alphabets(numbers: string, specials: string, uppers: string, lowers: string) {
    predicate NonEmpty() {
      numbers != [] && specials != [] && uppers != [] && lowers != []
    }
  }

  /** The alphabets the options choose; every one of them has characters to pick. */
  function AlphabetsFor(o: Options): (al: Alphabets)
    ensures al.NonEmpty()
  {
    Alphabets(NumberAlphabet(o), SpecialAlphabet(o), UpperAlphabet(o), LowerAlphabet(o))
  }

  /** `count` characters of `alphabet`, the k-th chosen by the word at `pos + k`. */
  function Drawn(alphabet: string, count: int, t: Tape, pos: nat): (r: string)
    requires alphabet != []
    ensures |r| == Clamp(count)
    decreases Clamp(count)
  {
    if count <= 0 then []
    else Drawn(alphabet, count - 1, t, pos) + [Pick(alphabet, t(pos + count - 1))]
  }

  /** `n[generateNumber(0, n.length)]` for the drawn word `u`. */
  function Pick(alphabet: string, u: Word): (c: char)
    requires alphabet != []
  {
    alphabet[GenerateNumber(u, 0, |alphabet|)]
  }

  /** A picked character is one of the alphabet's. */
  lemma PickIn(alphabet: string, u: Word)
    requires alphabet != []
    ensures Pick(alphabet, u) in alphabet
  {
  }

  /** Every drawn character is one of the alphabet's. */
  lemma DrawnIn(alphabet: string, count: int, t: Tape, pos: nat)
    requires alphabet != []
    ensures forall k :: 0 <= k < |Drawn(alphabet, count, t, pos)| ==> Drawn(alphabet, count, t, pos)[k] in alphabet
  {
    forall k | 0 <= k < |Drawn(alphabet, count, t, pos)| ensures Drawn(alphabet, count, t, pos)[k] in alphabet {
      DrawnAt(alphabet, count, t, pos, k);
      PickIn(alphabet, t(pos + k));
    }
  }

  /** The k-th drawn character is picked with the word at `pos + k`. */
  lemma {:induction false} DrawnAt(alphabet: string, count: int, t: Tape, pos: nat, k: nat)
    requires alphabet != [] && k < Clamp(count)
    ensures Drawn(alphabet, count, t, pos)[k] == Pick(alphabet, t(pos + k))
    decreases Clamp(count)
  {
    if k < count - 1 {
      DrawnAt(alphabet, count - 1, t, pos, k);
    }
  }

  /** Each part of a draft holds only characters of its class's alphabet. */
  lemma DraftIn(o: Options, t: Tape, pos: nat)
    ensures var d := MakeDraft(o, t, pos);
      (forall i :: 0 <= i < |d.lowers| ==> d.lowers[i] in LowerAlphabet(o)) &&
      (forall i :: 0 <= i < |d.uppers| ==> d.uppers[i] in UpperAlphabet(o)) &&
      (forall i :: 0 <= i < |d.digits| ==> d.digits[i] in NumberAlphabet(o)) &&
      (forall i :: 0 <= i < |d.specials| ==> d.specials[i] in SpecialAlphabet(o))
  {
    var plan := Plan(o, t, pos);
    DraftForIn(AlphabetsFor(o), plan.0, t, plan.1);
  }

  lemma DraftForIn(al: Alphabets, l: Lengths, t: Tape, p: nat)
    requires al.NonEmpty()
    ensures var d := DraftFor(al, l, t, p);
      (forall i :: 0 <= i < |d.lowers| ==> d.lowers[i] in al.lowers) &&
      (forall i :: 0 <= i < |d.uppers| ==> d.uppers[i] in al.uppers) &&
      (forall i :: 0 <= i < |d.digits| ==> d.digits[i] in al.numbers) &&
      (forall i :: 0 <= i < |d.specials| ==> d.specials[i] in al.specials)
  {
    var p1 := p + Clamp(l.num);
    var p2 := p1 + Clamp(l.special);
    var p3 := p2 + Clamp(l.upper);
    DrawnIn(al.numbers, l.num, t, p);
    DrawnIn(al.specials, l.special, t, p1);
    DrawnIn(al.uppers, l.upper, t, p2);
    DrawnIn(al.lowers, l.lower, t, p3);
  }

  datatype Draft = Draft(digits: string, specials: string, uppers: string, lowers: string, next: nat)

  /** The characters of each class before shuffling, and the position after the last draw. */
  function MakeDraft(o: Options, t: Tape, pos: nat): Draft {
    var plan := Plan(o, t, pos);
    DraftFor(AlphabetsFor(o), plan.0, t, plan.1)
  }

  /** The four draws for the lengths `l`, the first at `p`. */
  function DraftFor(al: Alphabets, l: Lengths, t: Tape, p: nat): (d: Draft)
    requires al.NonEmpty()
    ensures d.next == p + Clamp(l.num) + Clamp(l.special) + Clamp(l.upper) + Clamp(l.lower)
  {
    var p1 := p + Clamp(l.num);
    var p2 := p1 + Clamp(l.special);
    var p3 := p2 + Clamp(l.upper);
    Draft(Drawn(al.numbers, l.num, t, p), Drawn(al.specials, l.special, t, p1),
          Drawn(al.uppers, l.upper, t, p2), Drawn(al.lowers, l.lower, t, p3),
          p3 + Clamp(l.lower))
  }

  /** The four draws of `DraftFor`, each starting where the one before stopped. */
  lemma DraftForIs(al: Alphabets, l: Lengths, t: Tape, p: nat, digits: string, specials: string, uppers: string, lowers: string, next: nat)
    requires al.NonEmpty()
    requires digits == Drawn(al.numbers, l.num, t, p)
    requires specials == Drawn(al.specials, l.special, t, p + Clamp(l.num))
    requires uppers == Drawn(al.uppers, l.upper, t, p + Clamp(l.num) + Clamp(l.special))
    requires lowers == Drawn(al.lowers, l.lower, t, p + Clamp(l.num) + Clamp(l.special) + Clamp(l.upper))
    requires next == p + Clamp(l.num) + Clamp(l.special) + Clamp(l.upper) + Clamp(l.lower)
    ensures Draft(digits, specials, uppers, lowers, next) == DraftFor(al, l, t, p)
  {
  }

  /** The characters in the order the page lays them out before shuffling. */
  function Unshuffled(d: Draft): string {
    d.lowers + d.uppers + d.digits + d.specials
  }

  // ---------------------------------------------------------------------------
  // Shuffle
  // ---------------------------------------------------------------------------

  function Swap(s: seq<char>, i: nat, j: nat): (r: seq<char>)
    requires i < |s| && j < |s|
    ensures |r| == |s|
  {
    s[i := s[j]][j := s[i]]
  }

  /** A swap trades the two slots and leaves every other slot alone. */
  lemma SwapAt(s: seq<char>, i: nat, j: nat)
    requires i < |s| && j < |s|
    ensures Swap(s, i, j)[i] == s[j] && Swap(s, i, j)[j] == s[i]
    ensures forall k :: 0 <= k < |s| && k != i && k != j ==> Swap(s, i, j)[k] == s[k]
  {
  }

  /**
   * The swaps of `secureShuffle` from index `i` down to 1: index `i` trades
   * places with the partner drawn at `pos`, then the rest follows one position on.
   */
  function ShuffleFrom(s: seq<char>, i: nat, t: Tape, pos: nat): (r: (seq<char>, nat))
    requires i < |s|
    ensures |r.0| == |s| && r.1 == pos + i
    decreases i
  {
    if i == 0 then (s, pos)
    else
      var j := GenerateNumber(t(pos), 0, i);
      ShuffleFrom(Swap(s, i, j), i - 1, t, pos + 1)
  }

  /** One swap of `secureShuffle`, then the rest. */
  lemma ShuffleFromStep(s: seq<char>, i: nat, t: Tape, pos: nat)
    requires 0 < i < |s|
    ensures ShuffleFrom(s, i, t, pos) == ShuffleFrom(Swap(s, i, GenerateNumber(t(pos), 0, i)), i - 1, t, pos + 1)
  {
  }

  /** Swapping index `i` with its drawn partner leaves the swaps below it. */
  lemma SwapStep(before: seq<char>, after: seq<char>, i: nat, j: int, t: Tape, pos: nat)
    requires 0 < i < |before| && j == GenerateNumber(t(pos), 0, i)
    requires after == before[i := before[j]][j := before[i]]
    ensures ShuffleFrom(before, i, t, pos) == ShuffleFrom(after, i - 1, t, pos + 1)
  {
    assert after == Swap(before, i, j);
    ShuffleFromStep(before, i, t, pos);
  }

  /** One call of `secureShuffle`, with the position after its draws. */
  function Shuffle(s: seq<char>, t: Tape, pos: nat): (r: (seq<char>, nat))
    ensures |r.0| == |s|
  {
    if |s| == 0 then (s, pos) else ShuffleFrom(s, |s| - 1, t, pos)
  }

  /**
   * The loop `for (i = round; i < generateNumber(1, 3); i++)` around the
   * shuffle: the bound is drawn afresh before every test, including the last.
   */
  function ShuffleRounds(s: seq<char>, round: nat, t: Tape, pos: nat): (r: (seq<char>, nat))
    requires round <= 2
    ensures |r.0| == |s|
    decreases 2 - round
  {
    var bound := GenerateNumber(t(pos), 1, 3);
    if round < bound then
      var shuffled := Shuffle(s, t, pos + 1);
      ShuffleRounds(shuffled.0, round + 1, t, shuffled.1)
    else (s, pos + 1)
  }

  /** A round below the freshly drawn bound shuffles once more. */
  lemma ShuffleRoundsStep(s: seq<char>, round: nat, t: Tape, pos: nat)
    requires round < GenerateNumber(t(pos), 1, 3)
    ensures round + 1 <= 2
    ensures var shuffled := Shuffle(s, t, pos + 1);
      ShuffleRounds(s, round, t, pos) == ShuffleRounds(shuffled.0, round + 1, t, shuffled.1)
  {
  }

  /** One more shuffle keeps the rounds' result. */
  lemma RoundStep(before: seq<char>, after: seq<char>, round: nat, t: Tape, pos: nat, next: nat, target: (seq<char>, nat))
    requires round <= 2 && round < GenerateNumber(t(pos), 1, 3)
    requires (after, next) == Shuffle(before, t, pos + 1)
    requires ShuffleRounds(before, round, t, pos) == target
    ensures round + 1 <= 2 && ShuffleRounds(after, round + 1, t, next) == target
  {
    ShuffleRoundsStep(before, round, t, pos);
  }

  /** A round at or above the freshly drawn bound ends the loop. */
  lemma ShuffleRoundsStop(s: seq<char>, round: nat, t: Tape, pos: nat)
    requires round <= 2 && round >= GenerateNumber(t(pos), 1, 3)
    ensures ShuffleRounds(s, round, t, pos) == (s, pos + 1)
  {
  }

  /** `generatePassword()` with the position after its last draw. */
  function Password(o: Options, t: Tape, pos: nat): (string, nat) {
    var d := MakeDraft(o, t, pos);
    ShuffleRounds(Unshuffled(d), 0, t, d.next)
  }

  lemma {:induction false} ShuffleFromPermutes(s: seq<char>, i: nat, t: Tape, pos: nat)
    requires i < |s|
    ensures multiset(ShuffleFrom(s, i, t, pos).0) == multiset(s)
    decreases i
  {
    if i > 0 {
      var j := GenerateNumber(t(pos), 0, i);
      ShuffleFromPermutes(Swap(s, i, j), i - 1, t, pos + 1);
      assert multiset(Swap(s, i, j)) == multiset(s) by {
        assert s[i := s[j]][j := s[i]] == Swap(s, i, j);
      }
    }
  }

  /** A shuffle rearranges its input: same characters, same multiplicities. */
  lemma ShufflePermutes(s: seq<char>, t: Tape, pos: nat)
    ensures multiset(Shuffle(s, t, pos).0) == multiset(s)
  {
    if |s| > 0 {
      ShuffleFromPermutes(s, |s| - 1, t, pos);
    }
  }

  lemma {:induction false} ShuffleRoundsPermutes(s: seq<char>, round: nat, t: Tape, pos: nat)
    requires round <= 2
    ensures multiset(ShuffleRounds(s, round, t, pos).0) == multiset(s)
    decreases 2 - round
  {
    var bound := GenerateNumber(t(pos), 1, 3);
    if round < bound {
      var shuffled := Shuffle(s, t, pos + 1);
      ShufflePermutes(s, t, pos + 1);
      ShuffleRoundsPermutes(shuffled.0, round + 1, t, shuffled.1);
    }
  }

  /** The swaps from `i` down never touch a slot above `i`. */
  lemma {:induction false} ShuffleFromKeepsAbove(s: seq<char>, i: nat, t: Tape, pos: nat)
    requires i < |s|
    ensures forall k :: i < k < |s| ==> ShuffleFrom(s, i, t, pos).0[k] == s[k]
    decreases i
  {
    if i > 0 {
      var j := GenerateNumber(t(pos), 0, i);
      SwapAt(s, i, j);
      ShuffleFromKeepsAbove(Swap(s, i, j), i - 1, t, pos + 1);
    }
  }

  /**
   * Every partner is strictly below its index, so the last slot always receives
   * an element from further down: the shuffle never leaves the last element in
   * place (a Sattolo shuffle, not a uniform Fisher-Yates one).
   */
  lemma ShuffleMovesLastSlot(s: seq<char>, t: Tape, pos: nat)
    requires |s| >= 2
    ensures exists j :: 0 <= j < |s| - 1 && Shuffle(s, t, pos).0[|s| - 1] == s[j]
  {
    var n := |s|;
    var j := GenerateNumber(t(pos), 0, n - 1);
    var s' := Swap(s, n - 1, j);
    SwapAt(s, n - 1, j);
    ShuffleFromKeepsAbove(s', n - 2, t, pos + 1);
    assert Shuffle(s, t, pos).0 == ShuffleFrom(s', n - 2, t, pos + 1).0;
    assert Shuffle(s, t, pos).0[n - 1] == s[j];
  }

  /** On two characters every shuffle swaps them. */
  lemma ShuffleSwapsPair(s: seq<char>, t: Tape, pos: nat)
    requires |s| == 2
    ensures Shuffle(s, t, pos).0 == [s[1], s[0]]
  {
    var j := GenerateNumber(t(pos), 0, 1);
    assert j == 0;
    SwapAt(s, 1, 0);
    assert Shuffle(s, t, pos).0 == Swap(s, 1, 0);
  }

  // ---------------------------------------------------------------------------
  // Properties of a generated password
  // ---------------------------------------------------------------------------

  /** A password is a rearrangement of the drawn characters of the four classes. */
  lemma PasswordRearrangesDraft(o: Options, t: Tape, pos: nat)
    ensures multiset(Password(o, t, pos).0) == multiset(Unshuffled(MakeDraft(o, t, pos)))
  {
    var d := MakeDraft(o, t, pos);
    ShuffleRoundsPermutes(Unshuffled(d), 0, t, d.next);
  }

  /** The length of a password is the sum of the four class lengths, each counted as zero when negative. */
  lemma PasswordLength(o: Options, t: Tape, pos: nat)
    ensures var l := Plan(o, t, pos).0;
      |Password(o, t, pos).0| == Clamp(l.num) + Clamp(l.special) + Clamp(l.upper) + Clamp(l.lower)
  {
  }

  /** Whether `c` belongs to a class the settings enable, in the alphabet the settings pick. */
  predicate Allowed(o: Options, c: char) {
    (o.isLowercase && c in LowerAlphabet(o)) ||
    (o.isUppercase && c in UpperAlphabet(o)) ||
    (o.isNumber && c in NumberAlphabet(o)) ||
    (o.isSpecial && c in SpecialAlphabet(o))
  }

  lemma DraftAllowed(o: Options, t: Tape, pos: nat)
    ensures forall c :: c in Unshuffled(MakeDraft(o, t, pos)) ==> Allowed(o, c)
  {
    var d := MakeDraft(o, t, pos);
    var l := Plan(o, t, pos).0;
    DraftIn(o, t, pos);
    forall c | c in Unshuffled(d) ensures Allowed(o, c) {
      if c in d.lowers {
        assert l.lower > 0;
      } else if c in d.uppers {
        assert l.upper > 0;
      } else if c in d.digits {
        assert l.num > 0;
      } else {
        assert c in d.specials;
        assert l.special > 0;
      }
    }
  }

  /** Every character of a password comes from an enabled class and its chosen alphabet. */
  lemma PasswordAllowed(o: Options, t: Tape, pos: nat)
    ensures forall i :: 0 <= i < |Password(o, t, pos).0| ==> Allowed(o, Password(o, t, pos).0[i])
  {
    var pw := Password(o, t, pos).0;
    var u := Unshuffled(MakeDraft(o, t, pos));
    PasswordRearrangesDraft(o, t, pos);
    DraftAllowed(o, t, pos);
    forall i | 0 <= i < |pw| ensures Allowed(o, pw[i]) {
      assert pw[i] in multiset(pw);
      assert pw[i] in u;
    }
  }

  /** A disabled class never appears; with ambiguity avoidance on, none of `l I O 0 1` appears. */
  lemma PasswordExcludes(o: Options, t: Tape, pos: nat)
    ensures var pw := Password(o, t, pos).0;
      (!o.isLowercase ==> forall i :: 0 <= i < |pw| ==> !IsLower(pw[i])) &&
      (!o.isUppercase ==> forall i :: 0 <= i < |pw| ==> !IsUpper(pw[i])) &&
      (!o.isNumber ==> forall i :: 0 <= i < |pw| ==> !IsDigit(pw[i])) &&
      (!o.isSpecial ==> forall i :: 0 <= i < |pw| ==> !IsSpecial(pw[i])) &&
      (o.avoidAmbiguous ==> forall i :: 0 <= i < |pw| ==> !IsAmbiguous(pw[i]))
  {
    PasswordAllowed(o, t, pos);
    ExcludedWhenAllowed(o, Password(o, t, pos).0);
  }

  lemma ExcludedWhenAllowed(o: Options, s: string)
    requires forall i :: 0 <= i < |s| ==> Allowed(o, s[i])
    ensures !o.isLowercase ==> forall i :: 0 <= i < |s| ==> !IsLower(s[i])
    ensures !o.isUppercase ==> forall i :: 0 <= i < |s| ==> !IsUpper(s[i])
    ensures !o.isNumber ==> forall i :: 0 <= i < |s| ==> !IsDigit(s[i])
    ensures !o.isSpecial ==> forall i :: 0 <= i < |s| ==> !IsSpecial(s[i])
    ensures o.avoidAmbiguous ==> forall i :: 0 <= i < |s| ==> !IsAmbiguous(s[i])
    ensures '\n' !in s
  {
    forall i | 0 <= i < |s|
      ensures (!o.isLowercase ==> !IsLower(s[i])) && (!o.isUppercase ==> !IsUpper(s[i]))
      ensures (!o.isNumber ==> !IsDigit(s[i])) && (!o.isSpecial ==> !IsSpecial(s[i]))
      ensures (o.avoidAmbiguous ==> !IsAmbiguous(s[i])) && s[i] != '\n'
    {
      AllowedClass(o, s[i]);
    }
  }

  /** The class facts about one allowed character. */
  lemma AllowedClass(o: Options, c: char)
    requires Allowed(o, c)
    ensures !o.isLowercase ==> !IsLower(c)
    ensures !o.isUppercase ==> !IsUpper(c)
    ensures !o.isNumber ==> !IsDigit(c)
    ensures !o.isSpecial ==> !IsSpecial(c)
    ensures o.avoidAmbiguous ==> !IsAmbiguous(c)
    ensures c != '\n'
  {
    AlphabetClasses(o);
    if o.isLowercase && c in LowerAlphabet(o) {
    } else if o.isUppercase && c in UpperAlphabet(o) {
    } else if o.isNumber && c in NumberAlphabet(o) {
    } else {
      assert c in SpecialAlphabet(o);
    }
  }

  /** A password is a single line. */
  lemma PasswordIsOneLine(o: Options, t: Tape, pos: nat)
    ensures '\n' !in Password(o, t, pos).0
  {
    PasswordAllowed(o, t, pos);
    ExcludedWhenAllowed(o, Password(o, t, pos).0);
  }

  /** Each chosen alphabet lies in its class, and the classes are disjoint. */
  lemma AlphabetClasses(o: Options)
    ensures forall c :: c in LowerAlphabet(o) ==> IsLower(c) && (o.avoidAmbiguous ==> c != 'l')
    ensures forall c :: c in UpperAlphabet(o) ==> IsUpper(c) && (o.avoidAmbiguous ==> c != 'I' && c != 'O')
    ensures forall c :: c in NumberAlphabet(o) ==> IsDigit(c) && (o.avoidAmbiguous ==> c != '0' && c != '1')
    ensures forall c :: c in SpecialAlphabet(o) ==> IsSpecial(c)
    ensures forall c :: IsSpecial(c) ==> !IsLower(c) && !IsUpper(c) && !IsDigit(c) && c != '\n'
  {
    LowerAlphabetsAreTheLetters();
    UpperAlphabetsAreTheLetters();
    NumbersAreTheDigits();
    LowerNoAmbiguousLetters();
    UpperNoAmbiguousLetters();
    NumericNoAmbiguousDigits();
    SpecialsAreNotAlphanumeric();
  }

  // ---------------------------------------------------------------------------
  // Counting characters of a class
  // ---------------------------------------------------------------------------

  function CountWhere(s: string, p: char -> bool): (n: nat)
    ensures n <= |s|
  {
    if s == [] then 0 else (if p(s[0]) then 1 else 0) + CountWhere(s[1..], p)
  }

  lemma {:induction false} CountWhereAppend(a: string, b: string, p: char -> bool)
    ensures CountWhere(a + b, p) == CountWhere(a, p) + CountWhere(b, p)
    decreases |a|
  {
    if a == [] {
      assert a + b == b;
    } else {
      assert (a + b)[1..] == a[1..] + b;
      CountWhereAppend(a[1..], b, p);
    }
  }

  lemma {:induction false} CountWhereMultiset(a: string, b: string, p: char -> bool)
    requires multiset(a) == multiset(b)
    ensures CountWhere(a, p) == CountWhere(b, p)
    decreases |a|
  {
    if a == [] {
      assert |multiset(b)| == 0;
    } else {
      var c := a[0];
      assert c in multiset(b);
      var k :| 0 <= k < |b| && b[k] == c;
      var b' := b[..k] + b[k + 1..];
      MultisetRemove(a, b, k);
      CountWhereMultiset(a[1..], b', p);
      CountWhereRemove(b, k, p);
    }
  }

  lemma MultisetRemove(a: string, b: string, k: nat)
    requires a != [] && k < |b| && b[k] == a[0] && multiset(a) == multiset(b)
    ensures multiset(a[1..]) == multiset(b[..k] + b[k + 1..])
  {
    assert a == [a[0]] + a[1..];
    assert b == b[..k] + [b[k]] + b[k + 1..];
    assert multiset(b) == multiset(b[..k]) + multiset{b[k]} + multiset(b[k + 1..]);
    assert multiset(a) == multiset{a[0]} + multiset(a[1..]);
    assert multiset(b[..k] + b[k + 1..]) == multiset(b[..k]) + multiset(b[k + 1..]);
    calc {
      multiset(a[1..]);
      multiset(a) - multiset{a[0]};
      multiset(b) - multiset{b[k]};
      multiset(b[..k]) + multiset(b[k + 1..]);
    }
  }

  lemma CountWhereRemove(b: string, k: nat, p: char -> bool)
    requires k < |b|
    ensures CountWhere(b, p) == (if p(b[k]) then 1 else 0) + CountWhere(b[..k] + b[k + 1..], p)
  {
    var front, tail := b[..k], b[k + 1..];
    var rest := [b[k]] + tail;
    assert b == front + rest;
    assert rest[1..] == tail;
    assert CountWhere(rest, p) == (if p(b[k]) then 1 else 0) + CountWhere(tail, p);
    CountWhereAppend(front, rest, p);
    CountWhereAppend(front, tail, p);
  }

  lemma {:induction false} CountWhereAll(s: string, p: char -> bool)
    requires forall i :: 0 <= i < |s| ==> p(s[i])
    ensures CountWhere(s, p) == |s|
    decreases |s|
  {
    if s != [] {
      CountWhereAll(s[1..], p);
    }
  }

  lemma {:induction false} CountWhereNone(s: string, p: char -> bool)
    requires forall i :: 0 <= i < |s| ==> !p(s[i])
    ensures CountWhere(s, p) == 0
    decreases |s|
  {
    if s != [] {
      CountWhereNone(s[1..], p);
    }
  }

  /**
   * With every class enabled and minimums that fit, a password has exactly the
   * requested length, at least the minimum digits and specials, at least two
   * upper case letters and at least one lower case letter.
   */
  lemma PasswordMeetsMinimums(o: Options, t: Tape, pos: nat)
    requires Sensible(o)
    ensures var pw := Password(o, t, pos).0;
      |pw| == o.passwordLength &&
      CountWhere(pw, IsDigit) >= o.minimumNumbers &&
      CountWhere(pw, IsSpecial) >= o.minimumSpecials &&
      CountWhere(pw, IsUpper) >= 2 &&
      CountWhere(pw, IsLower) >= 1
  {
    var pw := Password(o, t, pos).0;
    var d := MakeDraft(o, t, pos);
    PlanMeetsMinimums(o, t, pos);
    PasswordLength(o, t, pos);
    PasswordRearrangesDraft(o, t, pos);
    DraftClassCounts(o, t, pos);
    var u := Unshuffled(d);
    CountWhereMultiset(pw, u, IsDigit);
    CountWhereMultiset(pw, u, IsSpecial);
    CountWhereMultiset(pw, u, IsUpper);
    CountWhereMultiset(pw, u, IsLower);
  }

  /** In the unshuffled layout each class of characters is found only in its own part. */
  lemma DraftClassCounts(o: Options, t: Tape, pos: nat)
    ensures var d := MakeDraft(o, t, pos);
      CountWhere(Unshuffled(d), IsLower) == |d.lowers| &&
      CountWhere(Unshuffled(d), IsUpper) == |d.uppers| &&
      CountWhere(Unshuffled(d), IsDigit) == |d.digits| &&
      CountWhere(Unshuffled(d), IsSpecial) == |d.specials|
  {
    var d := MakeDraft(o, t, pos);
    AlphabetClasses(o);
    DraftIn(o, t, pos);
    LayoutClassCounts(d.lowers, d.uppers, d.digits, d.specials);
  }

  lemma LayoutClassCounts(lowers: string, uppers: string, digits: string, specials: string)
    requires forall i :: 0 <= i < |lowers| ==> IsLower(lowers[i])
    requires forall i :: 0 <= i < |uppers| ==> IsUpper(uppers[i])
    requires forall i :: 0 <= i < |digits| ==> IsDigit(digits[i])
    requires forall i :: 0 <= i < |specials| ==> IsSpecial(specials[i])
    ensures var s := lowers + uppers + digits + specials;
      CountWhere(s, IsLower) == |lowers| && CountWhere(s, IsUpper) == |uppers| &&
      CountWhere(s, IsDigit) == |digits| && CountWhere(s, IsSpecial) == |specials|
  {
    SpecialsAreNotAlphanumeric();
    CountLayout(lowers, uppers, digits, specials, IsLower);
    CountLayout(lowers, uppers, digits, specials, IsUpper);
    CountLayout(lowers, uppers, digits, specials, IsDigit);
    CountLayout(lowers, uppers, digits, specials, IsSpecial);
    CountWhereAll(lowers, IsLower);
    CountWhereNone(uppers, IsLower);
    CountWhereNone(digits, IsLower);
    CountWhereNone(specials, IsLower);
    CountWhereNone(lowers, IsUpper);
    CountWhereAll(uppers, IsUpper);
    CountWhereNone(digits, IsUpper);
    CountWhereNone(specials, IsUpper);
    CountWhereNone(lowers, IsDigit);
    CountWhereNone(uppers, IsDigit);
    CountWhereAll(digits, IsDigit);
    CountWhereNone(specials, IsDigit);
    CountWhereNone(lowers, IsSpecial);
    CountWhereNone(uppers, IsSpecial);
    CountWhereNone(digits, IsSpecial);
    CountWhereAll(specials, IsSpecial);
  }

  lemma CountLayout(a: string, b: string, c: string, e: string, p: char -> bool)
    ensures CountWhere(a + b + c + e, p) == CountWhere(a, p) + CountWhere(b, p) + CountWhere(c, p) + CountWhere(e, p)
  {
    CountWhereAppend(a + b + c, e, p);
    CountWhereAppend(a + b, c, p);
    CountWhereAppend(a, b, p);
  }

  // ---------------------------------------------------------------------------
  // Several passwords
  // ---------------------------------------------------------------------------

  /** `n` passwords generated one after another, each drawn where the one before stopped. */
  function Passwords(o: Options, t: Tape, pos: nat, n: nat): (r: (seq<string>, nat))
    ensures |r.0| == n
    decreases n
  {
    if n == 0 then ([], pos)
    else
      var before := Passwords(o, t, pos, n - 1);
      var last := Password(o, t, before.1);
      (before.0 + [last.0], last.1)
  }

  /** Each password followed by a newline. */
  function Terminated(ps: seq<string>): string {
    if ps == [] then [] else ps[0] + "\n" + Terminated(ps[1..])
  }

  lemma {:induction false} TerminatedSnoc(ps: seq<string>, p: string)
    ensures Terminated(ps + [p]) == Terminated(ps) + p + "\n"
    decreases |ps|
  {
    if ps != [] {
      assert (ps + [p])[1..] == ps[1..] + [p];
      TerminatedSnoc(ps[1..], p);
    }
  }

  lemma {:induction false} TerminatedIsJoin(ps: seq<string>)
    requires ps != []
    ensures Terminated(ps) == Join(ps, "\n") + "\n"
    decreases |ps|
  {
    if |ps| > 1 {
      TerminatedIsJoin(ps[1..]);
    }
  }

  /** The text of `i` passwords, each ended by a newline, extended by one more. */
  lemma TerminatedStep(o: Options, t: Tape, pos: nat, i: nat, temp: string, next: nat, password: string, after: nat)
    requires (Terminated(Passwords(o, t, pos, i).0), next) == (temp, Passwords(o, t, pos, i).1)
    requires (password, after) == Password(o, t, next)
    ensures (Terminated(Passwords(o, t, pos, i + 1).0), after) == (temp + password + "\n", Passwords(o, t, pos, i + 1).1)
  {
    TerminatedSnoc(Passwords(o, t, pos, i).0, password);
  }

  /** The multi-password text area splits back, line by line, into the generated passwords. */
  lemma PasswordLinesSplitBack(o: Options, t: Tape, pos: nat, n: nat)
    requires n >= 1
    ensures Split(Join(Passwords(o, t, pos, n).0, "\n"), "\n") == Passwords(o, t, pos, n).0
  {
    PasswordsNoNewline(o, t, pos, n);
    SplitJoinInverse(Passwords(o, t, pos, n).0, '\n');
  }

  lemma {:induction false} PasswordsNoNewline(o: Options, t: Tape, pos: nat, n: nat)
    ensures forall k :: 0 <= k < n ==> '\n' !in Passwords(o, t, pos, n).0[k]
    decreases n
  {
    if n > 0 {
      var before := Passwords(o, t, pos, n - 1);
      PasswordsNoNewline(o, t, pos, n - 1);
      PasswordIsOneLine(o, t, before.1);
      LinesSnoc(before.0, Password(o, t, before.1).0, Passwords(o, t, pos, n).0);
    }
  }

  lemma LinesSnoc(rest: seq<string>, line: string, all: seq<string>)
    requires all == rest + [line]
    requires '\n' !in line
    requires forall k :: 0 <= k < |rest| ==> '\n' !in rest[k]
    ensures forall k :: 0 <= k < |all| ==> '\n' !in all[k]
  {
    forall k | 0 <= k < |all| ensures '\n' !in all[k] {
      if k < |rest| {
        assert all[k] == rest[k];
      }
    }
  }

  // ---------------------------------------------------------------------------
  // Imperative code
  // ---------------------------------------------------------------------------

  /** One `generateNumber` call on the tape. */
  method GenerateNumberAt(t: Tape, pos: nat, min: int, max: int) returns (value: int, next: nat)
    ensures (value, next) == Draw(t, pos, min, max)
  {
    if min == max {
      return min, pos;
    }
    value := GenerateNumber(t(pos), min, max);
    next := pos + 1;
  }

  /** A character-drawing loop of `generatePassword`. */
  method DrawCharacters(alphabet: string, count: int, t: Tape, pos: nat) returns (chars: string, next: nat)
    requires alphabet != []
    ensures chars == Drawn(alphabet, count, t, pos)
    ensures next == pos + Clamp(count)
  {
    chars := [];
    next := pos;
    var i := 0;
    while i < count
      invariant 0 <= i <= Clamp(count)
      invariant next == pos + i
      invariant chars == Drawn(alphabet, i, t, pos)
    {
      chars := chars + [Pick(alphabet, t(next))];
      next := next + 1;
      i := i + 1;
    }
  }

  /** The first loop of `secureShuffle`: the partner of index `i` is `generateNumber(0, i)`, for `i` from the top down. */
  method DrawPartners(n: int, t: Tape, pos: nat) returns (randomNumbers: seq<int>, next: nat)
    ensures |randomNumbers| == if n <= 1 then 0 else n - 1
    ensures next == pos + |randomNumbers|
    ensures forall k :: 0 <= k < |randomNumbers| ==> randomNumbers[k] == GenerateNumber(t(pos + k), 0, n - 1 - k)
  {
    randomNumbers := [];
    next := pos;
    var i := n - 1;
    while i > 0
      invariant (n <= 1 && i == n - 1) || (n > 1 && 0 <= i <= n - 1)
      invariant |randomNumbers| == n - 1 - i
      invariant next == pos + |randomNumbers|
      invariant forall k :: 0 <= k < |randomNumbers| ==> randomNumbers[k] == GenerateNumber(t(pos + k), 0, n - 1 - k)
    {
      randomNumbers := randomNumbers + [GenerateNumber(t(next), 0, i)];
      next := next + 1;
      i := i - 1;
    }
  }

  /** `secureShuffle`: first draw every partner, then swap from the top down. */
  method SecureShuffle(a: array<char>, t: Tape, pos: nat) returns (next: nat)
    modifies a
    ensures (a[..], next) == Shuffle(old(a[..]), t, pos)
  {
    var n := a.Length;
    ghost var original := a[..];
    var randomNumbers;
    randomNumbers, next := DrawPartners(n, t, pos);
    if n == 0 {
      return;
    }
    var i := n - 1;
    ghost var at := pos;
    ghost var target := ShuffleFrom(original, n - 1, t, pos);
    while i > 0
      invariant 0 <= i <= n - 1 && at == pos + (n - 1 - i)
      invariant ShuffleFrom(a[..], i, t, at) == target
    {
      var j := randomNumbers[a.Length - i - 1];
      ghost var before := a[..];
      var temp := a[i];
      a[i] := a[j];
      a[j] := temp;
      SwapStep(before, a[..], i, j, t, at);
      i := i - 1;
      at := at + 1;
    }
  }

  /** The length computations that open `generatePassword`. */
  method PlanLengths(o: Options, t: Tape, pos: nat) returns (lengths: Lengths, next: nat)
    ensures (lengths, next) == Plan(o, t, pos)
  {
    var minNum := if o.isNumber then o.minimumNumbers else 0;
    var maxNum := if o.isNumber then o.passwordLength - (if o.isSpecial then o.minimumSpecials else 0) - 3 else 0;
    var numLength;
    numLength, next := GenerateNumberAt(t, pos, minNum, maxNum);
    var minSpecial := if o.isSpecial then o.minimumSpecials else 0;
    var maxSpecial := if o.isSpecial then o.passwordLength - (if o.isNumber then numLength else 0) - 3 else 0;
    var specialLength;
    specialLength, next := GenerateNumberAt(t, next, minSpecial, maxSpecial);
    var remainder := o.passwordLength - numLength - specialLength;
    var cut := 0;
    if o.isUppercase && o.isLowercase {
      cut, next := GenerateNumberAt(t, next, 1, Min(remainder, remainder - 2));
    }
    var upperLength := if o.isUppercase then remainder - cut else 0;
    var lowerLength := if o.isLowercase then remainder - upperLength else 0;
    lengths := Lengths(numLength, specialLength, upperLength, lowerLength);
  }

  /** The closing loop of `generatePassword`: shuffle while the counter is below a freshly drawn `generateNumber(1, 3)`. */
  method ShuffleRepeatedly(results: string, t: Tape, pos: nat) returns (password: string, next: nat)
    ensures (password, next) == ShuffleRounds(results, 0, t, pos)
  {
    var a := new char[|results|](k requires 0 <= k < |results| => results[k]);
    assert a[..] == results;
    ghost var target := ShuffleRounds(results, 0, t, pos);
    var round := 0;
    ghost var boundAt := pos;
    var bound := GenerateNumber(t(pos), 1, 3);
    next := pos + 1;
    while round < bound
      invariant round <= 2 && next == boundAt + 1
      invariant bound == GenerateNumber(t(boundAt), 1, 3)
      invariant ShuffleRounds(a[..], round, t, boundAt) == target
      decreases 2 - round
    {
      ghost var before := a[..];
      next := SecureShuffle(a, t, next);
      RoundStep(before, a[..], round, t, boundAt, next, target);
      round := round + 1;
      boundAt := next;
      bound := GenerateNumber(t(next), 1, 3);
      next := next + 1;
    }
    ShuffleRoundsStop(a[..], round, t, boundAt);
    password := a[..];
  }

  /** The four character-drawing loops of `generatePassword`, digits first. */
  method DrawClasses(al: Alphabets, lengths: Lengths, t: Tape, pos: nat)
    returns (numberResults: string, specialResults: string, upperResults: string, lowerResults: string, next: nat)
    requires al.NonEmpty()
    ensures Draft(numberResults, specialResults, upperResults, lowerResults, next) == DraftFor(al, lengths, t, pos)
  {
    var afterNumbers, afterSpecials, afterUppers;
    numberResults, afterNumbers := DrawCharacters(al.numbers, lengths.num, t, pos);
    specialResults, afterSpecials := DrawCharacters(al.specials, lengths.special, t, afterNumbers);
    upperResults, afterUppers := DrawCharacters(al.uppers, lengths.upper, t, afterSpecials);
    lowerResults, next := DrawCharacters(al.lowers, lengths.lower, t, afterUppers);
    DraftForIs(al, lengths, t, pos, numberResults, specialResults, upperResults, lowerResults, next);
  }

  /** `generatePassword`: plan the lengths, draw the four classes, lay them out and shuffle one or two times. */
  method GeneratePassword(o: Options, t: Tape, pos: nat) returns (password: string, next: nat)
    ensures (password, next) == Password(o, t, pos)
  {
    var lengths;
    lengths, next := PlanLengths(o, t, pos);
    var numberResults, specialResults, upperResults, lowerResults;
    numberResults, specialResults, upperResults, lowerResults, next := DrawClasses(AlphabetsFor(o), lengths, t, next);
    password, next := ShuffleRepeatedly(lowerResults + upperResults + numberResults + specialResults, t, next);
  }

  // ---------------------------------------------------------------------------
  // Page state
  // ---------------------------------------------------------------------------

  /** The page's state variables; tape positions are threaded through the generate handlers. */
  class PasswordGenerator {
    var textBox: string
    var numberOfPassword: int
    var areaTextBox: string
    var passwordLength: int
    var minimumNumbers: int
    var minimumSpecials: int
    var isUppercase: bool
    var isLowercase: bool
    var isNumber: bool
    var isSpecial: bool
    var isSpecialURL: bool
    var avoidAmbiguous: bool

    /** The initial state of the page: two passwords of length 8 with one digit and one special. */
    constructor ()
      ensures textBox == [] && numberOfPassword == 2 && areaTextBox == []
      ensures Settings() == Options(8, 1, 1, true, true, true, true, false, false)
    {
      textBox := [];
      numberOfPassword := 2;
      areaTextBox := [];
      passwordLength := 8;
      minimumNumbers := 1;
      minimumSpecials := 1;
      isUppercase := true;
      isLowercase := true;
      isNumber := true;
      isSpecial := true;
      isSpecialURL := false;
      avoidAmbiguous := false;
    }

    function Settings(): Options
      reads this
    {
      Options(passwordLength, minimumNumbers, minimumSpecials, isUppercase, isLowercase,
              isNumber, isSpecial, isSpecialURL, avoidAmbiguous)
    }

    /** At least one character class is enabled. */
    predicate SomeClassEnabled()
      reads this
    {
      isUppercase || isLowercase || isNumber || isSpecial
    }

    /** `onClickGenerate`: the single-password text box gets a new password. */
    method OnClickGenerate(t: Tape, pos: nat) returns (next: nat)
      modifies this
      ensures (textBox, next) == Password(old(Settings()), t, pos)
      ensures Settings() == old(Settings())
      ensures numberOfPassword == old(numberOfPassword) && areaTextBox == old(areaTextBox)
    {
      textBox, next := GeneratePassword(Settings(), t, pos);
    }

    /** `onClickGenerateMultiple`: the text area gets `numberOfPassword` passwords, one per line. */
    method OnClickGenerateMultiple(t: Tape, pos: nat) returns (next: nat)
      modifies this
      ensures areaTextBox == Join(Passwords(old(Settings()), t, pos, Clamp(old(numberOfPassword))).0, "\n")
      ensures next == Passwords(old(Settings()), t, pos, Clamp(old(numberOfPassword))).1
      ensures Settings() == old(Settings())
      ensures numberOfPassword == old(numberOfPassword) && textBox == old(textBox)
    {
      var o := Settings();
      var temp: string := [];
      next := pos;
      var i := 0;
      while i < numberOfPassword
        invariant unchanged(this)
        invariant 0 <= i <= Clamp(numberOfPassword)
        invariant (Terminated(Passwords(o, t, pos, i).0), next) == (temp, Passwords(o, t, pos, i).1)
      {
        var password, after;
        password, after := GeneratePassword(o, t, next);
        TerminatedStep(o, t, pos, i, temp, next, password, after);
        temp := temp + password + "\n";
        next := after;
        i := i + 1;
      }
      ghost var all := Passwords(o, t, pos, i).0;
      if temp == [] {
        areaTextBox := [];
        assert all == [];
      } else {
        TerminatedIsJoin(all);
        assert temp[..|temp| - 1] == Join(all, "\n");
        areaTextBox := temp[..|temp| - 1];
      }
    }

    /** `onChangeNumberOfPassword`: an empty field (`None`) leaves the count as it was. */
    method OnChangeNumberOfPassword(e: Option<int>)
      modifies this
      ensures numberOfPassword == if e.Some? then e.value else old(numberOfPassword)
      ensures Settings() == old(Settings()) && textBox == old(textBox) && areaTextBox == old(areaTextBox)
    {
      if e.Some? {
        numberOfPassword := e.value;
      }
    }

    method OnChangeOptionPasswordLength(e: Option<int>)
      modifies this
      ensures Settings() == if e.Some? then old(Settings()).(passwordLength := e.value) else old(Settings())
      ensures numberOfPassword == old(numberOfPassword) && textBox == old(textBox) && areaTextBox == old(areaTextBox)
    {
      if e.Some? {
        passwordLength := e.value;
      }
    }

    method OnChangeOptionMinimumNumbers(e: Option<int>)
      modifies this
      ensures Settings() == if e.Some? then old(Settings()).(minimumNumbers := e.value) else old(Settings())
      ensures numberOfPassword == old(numberOfPassword) && textBox == old(textBox) && areaTextBox == old(areaTextBox)
    {
      if e.Some? {
        minimumNumbers := e.value;
      }
    }

    method OnChangeOptionMinimumSpecials(e: Option<int>)
      modifies this
      ensures Settings() == if e.Some? then old(Settings()).(minimumSpecials := e.value) else old(Settings())
      ensures numberOfPassword == old(numberOfPassword) && textBox == old(textBox) && areaTextBox == old(areaTextBox)
    {
      if e.Some? {
        minimumSpecials := e.value;
      }
    }

    /** Unchecking the last enabled class turns lower case back on, so some class always stays enabled. */
    method OnChangeIsUppercase(checked: bool)
      modifies this
      ensures SomeClassEnabled()
      ensures Settings() == old(Settings()).(isUppercase := checked,
        isLowercase := old(isLowercase) || (!checked && !old(isNumber) && !old(isSpecial)))
      ensures numberOfPassword == old(numberOfPassword) && textBox == old(textBox) && areaTextBox == old(areaTextBox)
    {
      var wasNumber, wasSpecial, wasLowercase := isNumber, isSpecial, isLowercase;
      isUppercase := checked;
      if !checked && !wasNumber && !wasSpecial && !wasLowercase {
        isLowercase := true;
      }
    }

    method OnChangeIsLowercase(checked: bool)
      modifies this
      ensures SomeClassEnabled()
      ensures Settings() == old(Settings()).(
        isLowercase := checked || (!old(isNumber) && !old(isSpecial) && !old(isUppercase)))
      ensures numberOfPassword == old(numberOfPassword) && textBox == old(textBox) && areaTextBox == old(areaTextBox)
    {
      var wasNumber, wasSpecial, wasUppercase := isNumber, isSpecial, isUppercase;
      isLowercase := checked;
      if !checked && !wasNumber && !wasSpecial && !wasUppercase {
        isLowercase := true;
      }
    }

    method OnChangeIsNumber(checked: bool)
      modifies this
      ensures SomeClassEnabled()
      ensures Settings() == old(Settings()).(isNumber := checked,
        isLowercase := old(isLowercase) || (!checked && !old(isUppercase) && !old(isSpecial)))
      ensures numberOfPassword == old(numberOfPassword) && textBox == old(textBox) && areaTextBox == old(areaTextBox)
    {
      var wasUppercase, wasSpecial, wasLowercase := isUppercase, isSpecial, isLowercase;
      isNumber := checked;
      if !checked && !wasUppercase && !wasSpecial && !wasLowercase {
        isLowercase := true;
      }
    }

    method OnChangeIsSpecial(checked: bool)
      modifies this
      ensures SomeClassEnabled()
      ensures Settings() == old(Settings()).(isSpecial := checked,
        isLowercase := old(isLowercase) || (!checked && !old(isNumber) && !old(isUppercase)))
      ensures numberOfPassword == old(numberOfPassword) && textBox == old(textBox) && areaTextBox == old(areaTextBox)
    {
      var wasNumber, wasUppercase, wasLowercase := isNumber, isUppercase, isLowercase;
      isSpecial := checked;
      if !checked && !wasNumber && !wasUppercase && !wasLowercase {
        isLowercase := true;
      }
    }

    method OnChangeIsSpecialURL(checked: bool)
      modifies this
      ensures Settings() == old(Settings()).(isSpecialURL := checked)
      ensures numberOfPassword == old(numberOfPassword) && textBox == old(textBox) && areaTextBox == old(areaTextBox)
    {
      isSpecialURL := checked;
    }

    method OnChangeAvoidAmbiguous(checked: bool)
      modifies this
      ensures Settings() == old(Settings()).(avoidAmbiguous := checked)
      ensures numberOfPassword == old(numberOfPassword) && textBox == old(textBox) && areaTextBox == old(areaTextBox)
    {
      avoidAmbiguous := checked;
    }
  }
}
