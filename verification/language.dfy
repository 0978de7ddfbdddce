/** `in_words` of language.py: an English rendering of a number of at most
    four digits, built as a list of words and joined with single spaces. */
module Language {
  import opened Wrappers
  import opened Decimal

  /** `names`: the split of a text that starts with a space, so entry 0 is
      the empty string; entries 1 to 19 are the words for those numbers. */
  const Names: seq<string> := ["", "one", "two", "three", "four", "five", "six", "seven", "eight", "nine",
    "ten", "eleven", "twelve", "thirteen", "fourteen", "fifteen", "sixteen", "seventeen", "eighteen", "nineteen"]

  /** `tens_names`: entries 0 and 1 are empty, entry `t` names `10 * t`. */
  const TensNames: seq<string> := ["", "", "twenty", "thirty", "forty", "fifty", "sixty", "seventy", "eighty", "ninety"]

  /** The `ValueError` of unpacking `'{:04}'.format(number)` into four
      digits: five or more characters, or a leading `-` that `int` rejects. */
  datatype Fault = NotFourDigits

  /** `sep.join(ws)`. */
  function Join(ws: seq<string>, sep: string): string
  {
    if |ws| == 0 then "" else if |ws| == 1 then ws[0] else ws[0] + sep + Join(ws[1..], sep)
  }

  /** The word list for the digits `th h te o`, in the order the
      branches of `in_words` append them. */
  function Words(th: nat, h: nat, te: nat, o: nat): seq<string>
    requires th < 10 && h < 10 && te < 10 && o < 10
  {
    var big := (if th > 0 then [Names[th], "thousand"] else [])
             + (if h > 0 then [Names[h], "hundred"] else []);
    var yesAnd := th > 0 || h > 0;
    var joined := big + (if yesAnd && (o != 0 || te != 0) then ["and"] else []);
    if te == 1 then joined + [Names[te * 10 + o]] else joined + [TensNames[te], Names[o]]
  }

  /** `in_words(number)`: pad to four digits, read each back, build the
      words and join them. */
  function InWords(number: int): Result<string, Fault>
  {
    if number < 0 then Failure(NotFourDigits)
    else
      var s := ZeroPad4(number);
      if |s| != 4 then Failure(NotFourDigits)
      else Success(Join(Words(DigitValue(s[0]), DigitValue(s[1]), DigitValue(s[2]), DigitValue(s[3])), " "))
  }

  /** The words of `n` from its arithmetic digits: the reference the
      lemmas below compare `in_words` with. */
  function Spoken(n: nat): seq<string>
    requires n <= 9999
  {
    Words(n / 1000, n / 100 % 10, n / 10 % 10, n % 10)
  }

  /** For a number of at most four digits the padded text has exactly four
      characters: the thousands, hundreds, tens and ones digits. */
  lemma PaddedDigits(n: nat)
    requires n <= 9999
    ensures var s := ZeroPad4(n);
            |s| == 4 && s[0] == DigitChar(n / 1000) && s[1] == DigitChar(n / 100 % 10)
            && s[2] == DigitChar(n / 10 % 10) && s[3] == DigitChar(n % 10)
  {
    if n >= 1000 {
      assert NatToString(n / 1000) == [DigitChar(n / 1000)];
      assert NatToString(n / 100) == [DigitChar(n / 1000), DigitChar(n / 100 % 10)];
      assert NatToString(n / 10) == [DigitChar(n / 1000), DigitChar(n / 100 % 10), DigitChar(n / 10 % 10)];
    } else if n >= 100 {
      assert NatToString(n / 100) == [DigitChar(n / 100 % 10)];
      assert NatToString(n / 10) == [DigitChar(n / 100 % 10), DigitChar(n / 10 % 10)];
    } else if n >= 10 {
      assert NatToString(n / 10) == [DigitChar(n / 10 % 10)];
    }
  }

  /** A number of five or more digits has a numeral of five or more
      characters. */
  lemma {:induction false} LongNumeral(n: nat, k: nat)
    requires n >= Power10(k)
    ensures |NatToString(n)| >= k + 1
  {
    if k > 0 {
      LongNumeral(n / 10, k - 1);
    }
  }

  function Power10(k: nat): nat
  {
    if k == 0 then 1 else 10 * Power10(k - 1)
  }

  /** `in_words` succeeds exactly on 0..9999, and there it joins the words
      of the number's arithmetic digits. */
  lemma InWordsSpoken(n: int)
    ensures InWords(n).Success? <==> 0 <= n <= 9999
    ensures 0 <= n <= 9999 ==> InWords(n) == Success(Join(Spoken(n), " "))
  {
    if n > 9999 {
      assert Power10(4) == 10000;
      LongNumeral(n, 4);
    } else if n >= 0 {
      PaddedDigits(n);
    }
  }

  /** No entry of `names` or `tens_names` is one of the joining words. */
  lemma NamesAreNumbers()
    ensures forall i :: 0 <= i < |Names| ==> Names[i] != "thousand" && Names[i] != "hundred" && Names[i] != "and"
    ensures forall i :: 0 <= i < |TensNames| ==> TensNames[i] != "thousand" && TensNames[i] != "hundred" && TensNames[i] != "and"
  {
  }

  /** `<digit> thousand` is said exactly when the thousands digit is not
      zero, and then it opens the words. */
  lemma ThousandIff(n: nat)
    requires n <= 9999
    ensures "thousand" in Spoken(n) <==> n >= 1000
    ensures n >= 1000 ==> Spoken(n)[..2] == [Names[n / 1000], "thousand"]
  {
    NamesAreNumbers();
  }

  /** `<digit> hundred` is said exactly when the hundreds digit is not
      zero, and then it comes right after any thousands. */
  lemma HundredIff(n: nat)
    requires n <= 9999
    ensures "hundred" in Spoken(n) <==> n / 100 % 10 != 0
    ensures n / 100 % 10 != 0 ==>
              var k := if n >= 1000 then 2 else 0;
              Spoken(n)[k..k + 2] == [Names[n / 100 % 10], "hundred"]
  {
    NamesAreNumbers();
  }

  /** `and` is said exactly when there is a thousands or hundreds part and
      the last two digits are not both zero. */
  lemma AndIff(n: nat)
    requires n <= 9999
    ensures "and" in Spoken(n) <==> n >= 100 && n % 100 != 0
  {
    NamesAreNumbers();
    assert n % 100 == 10 * (n / 10 % 10) + n % 10;
  }

  /** The words for the last two digits: when the tens digit is 1, a single
      teen word, alone below 100 and after `and` above it; otherwise the
      tens word and the ones word, either of which may be empty. */
  lemma LastTwoDigits(n: nat)
    requires n <= 9999
    ensures var w := Spoken(n);
            if n / 10 % 10 == 1 then
              10 <= n % 100 <= 19
              && (if n < 100 then w == [Names[n % 100]]
                  else |w| >= 2 && w[|w| - 2..] == ["and", Names[n % 100]])
            else
              |w| >= 2 && w[|w| - 2..] == [TensNames[n / 10 % 10], Names[n % 10]]
  {
    assert n % 100 == 10 * (n / 10 % 10) + n % 10;
  }

  /** The join of one word in front of a non-empty list. */
  lemma JoinCons(w: string, ws: seq<string>, sep: string)
    requires |ws| >= 1
    ensures Join([w] + ws, sep) == w + sep + Join(ws, sep)
  {
    assert ([w] + ws)[1..] == ws;
  }

  lemma SpokenTwenty()
    ensures Spoken(20) == ["twenty", ""]
  {
    assert 20 / 10 % 10 == 2;
  }

  /** Twenty has an empty ones word, which the join still separates with
      a space: `in_words(20)` is `"twenty "`. */
  lemma TrailingSpace(n: int)
    requires n == 20
    ensures InWords(n) == Success("twenty ")
  {
    var empty := "";
    SpokenTwenty();
    assert Spoken(n) == ["twenty"] + [empty];
    InWordsSpoken(n);
    JoinCons("twenty", [empty], " ");
    assert Join(Spoken(n), " ") == "twenty" + " " + Join([empty], " ");
    assert Join([empty], " ") == "";
    assert "twenty" + " " + "" == "twenty ";
  }

  /** Outside 0..9999 `in_words` raises `ValueError`: `10000` pads to five
      digits for four names, and `-1` pads to `-001`, whose `-` `int`
      rejects. */
  lemma OutOfRange(n: int)
    requires n == 10000 || n == -1
    ensures InWords(n) == Failure(NotFourDigits)
  {
    InWordsSpoken(n);
  }
}
