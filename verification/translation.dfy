/** `rot13` of translation.py: a dictionary pairing each ASCII letter with
    the letter 13 places further round its own alphabet, applied to every
    character that is a key and leaving the others alone. */
module Translation {

  /** `string.ascii_lowercase` and `string.ascii_uppercase`: the 26
      consecutive code points from `a` and from `A`. */
  function Lower(): string
  {
    seq(26, i requires 0 <= i < 26 => ('a' as int + i) as char)
  }

  function Upper(): string
  {
    seq(26, i requires 0 <= i < 26 => ('A' as int + i) as char)
  }

  /** `zip(x, islice(cycle(x), 13, None))`: each character with the one 13
      places later, wrapping round the end. */
  function Pairs(x: string): (ps: seq<(char, char)>)
    ensures |ps| == |x|
  {
    seq(|x|, i requires 0 <= i < |x| => (x[i], x[(i + 13) % |x|]))
  }

  /** `dict(pairs)`: a later pair overrides an earlier one with the same
      key. */
  function ToMap(ps: seq<(char, char)>): map<char, char>
  {
    if |ps| == 0 then map[] else ToMap(ps[..|ps| - 1])[ps[|ps| - 1].0 := ps[|ps| - 1].1]
  }

  /** The dictionary `d` of `rot13`. */
  function Table(): map<char, char>
  {
    ToMap(Pairs(Lower()) + Pairs(Upper()))
  }

  /** `d[c] if c in d else c`. */
  function Swap(d: map<char, char>, c: char): char
  {
    if c in d then d[c] else c
  }

  /** `rot13(s)`. */
  function Rot13(s: string): string
  {
    var d := Table();
    seq(|s|, i requires 0 <= i < |s| => Swap(d, s[i]))
  }

  predicate IsLower(c: char)
  {
    'a' <= c <= 'z'
  }

  predicate IsUpper(c: char)
  {
    'A' <= c <= 'Z'
  }

  /** The rotation by code point arithmetic: a letter moves 13 places on
      within its case, wrapping from `z` to `a`; anything else stays. */
  function Shift(c: char): char
  {
    if IsLower(c) then ('a' as int + (c as int - 'a' as int + 13) % 26) as char
    else if IsUpper(c) then ('A' as int + (c as int - 'A' as int + 13) % 26) as char
    else c
  }

  /** The keys of `dict(pairs)` are the first components of the pairs. */
  lemma {:induction false} ToMapKeys(ps: seq<(char, char)>, k: char)
    ensures k in ToMap(ps) <==> exists i :: 0 <= i < |ps| && ps[i].0 == k
  {
    if |ps| > 0 {
      var init := ps[..|ps| - 1];
      ToMapKeys(init, k);
      if exists i :: 0 <= i < |init| && init[i].0 == k {
        var i :| 0 <= i < |init| && init[i].0 == k;
        assert ps[i].0 == k;
      }
      if exists i :: 0 <= i < |ps| && ps[i].0 == k {
        var i :| 0 <= i < |ps| && ps[i].0 == k;
        if i < |init| {
          assert init[i].0 == k;
        }
      }
    }
  }

  /** A key's value in `dict(pairs)` is the one from its last pair. */
  lemma {:induction false} ToMapLast(ps: seq<(char, char)>, i: nat)
    requires i < |ps|
    requires forall j :: i < j < |ps| ==> ps[j].0 != ps[i].0
    ensures ps[i].0 in ToMap(ps) && ToMap(ps)[ps[i].0] == ps[i].1
  {
    if i < |ps| - 1 {
      var init := ps[..|ps| - 1];
      assert init[i] == ps[i];
      ToMapLast(init, i);
    }
  }

  /** The alphabets spelled out. */
  lemma Alphabets()
    ensures Lower() == "abcdefghijklmnopqrstuvwxyz"
    ensures Upper() == "ABCDEFGHIJKLMNOPQRSTUVWXYZ"
  {
  }

  /** The pairs of both alphabets, in the order `chain` gives them. */
  function AllPairs(): seq<(char, char)>
  {
    Pairs(Lower()) + Pairs(Upper())
  }

  /** Only letters are keys. */
  lemma TableKeys(c: char)
    requires c in Table()
    ensures IsLower(c) || IsUpper(c)
  {
    ToMapKeys(AllPairs(), c);
  }

  /** A lowercase letter is a key and maps to its shift. */
  lemma TableLower(c: char)
    requires IsLower(c)
    ensures c in Table() && Table()[c] == Shift(c)
  {
    var ps := AllPairs();
    var i := c as int - 'a' as int;
    assert ps[i] == Pairs(Lower())[i] == (c, Shift(c));
    ToMapLast(ps, i);
  }

  /** An uppercase letter is a key and maps to its shift. */
  lemma TableUpper(c: char)
    requires IsUpper(c)
    ensures c in Table() && Table()[c] == Shift(c)
  {
    var ps := AllPairs();
    var i := c as int - 'A' as int;
    assert ps[26 + i] == Pairs(Upper())[i] == (c, Shift(c));
    ToMapLast(ps, 26 + i);
  }

  /** The dictionary has exactly the ASCII letters as keys, and maps each
      to its shift by 13 within its case. */
  lemma TableShift(c: char)
    ensures c in Table() <==> IsLower(c) || IsUpper(c)
    ensures c in Table() ==> Table()[c] == Shift(c)
  {
    if IsLower(c) {
      TableLower(c);
    } else if IsUpper(c) {
      TableUpper(c);
    } else if c in Table() {
      TableKeys(c);
    }
  }

  /** `rot13` keeps the length and shifts each character independently. */
  lemma Rot13Shift(s: string)
    ensures |Rot13(s)| == |s|
    ensures forall i :: 0 <= i < |s| ==> Rot13(s)[i] == Shift(s[i])
  {
    forall i | 0 <= i < |s|
      ensures Rot13(s)[i] == Shift(s[i])
    {
      TableShift(s[i]);
    }
  }

  /** A lowercase letter goes 13 places on in the lowercase alphabet, an
      uppercase one in the uppercase alphabet, and any other character is
      left alone. */
  lemma ShiftPlaces(c: char)
    ensures IsLower(c) ==> IsLower(Shift(c)) && Lower()[(c as int - 'a' as int + 13) % 26] == Shift(c)
    ensures IsUpper(c) ==> IsUpper(Shift(c)) && Upper()[(c as int - 'A' as int + 13) % 26] == Shift(c)
    ensures !IsLower(c) && !IsUpper(c) ==> Shift(c) == c
  {
  }

  /** Shifting twice moves 26 places: back to the start. */
  lemma ShiftTwice(c: char)
    ensures Shift(Shift(c)) == c
  {
    if IsLower(c) {
      Rotate26(c as int - 'a' as int);
    } else if IsUpper(c) {
      Rotate26(c as int - 'A' as int);
    }
  }

  lemma Rotate26(k: int)
    requires 0 <= k < 26
    ensures ((k + 13) % 26 + 13) % 26 == k
  {
  }

  /** `rot13` undoes itself. */
  lemma Rot13Involution(s: string)
    ensures Rot13(Rot13(s)) == s
  {
    Rot13Shift(s);
    Rot13Shift(Rot13(s));
    forall i | 0 <= i < |s|
      ensures Rot13(Rot13(s))[i] == s[i]
    {
      ShiftTwice(s[i]);
    }
  }
}
