/** Name allocation shared by the editors.

    * "Smallest unused numeric suffix": `get_next_object_name`
      (pyspine/boneless_core_base.py), `_get_next_bone_name`
      (PySpine_BoneEditor.py, old_pyspine/Editor_BoneSheet.py) and
      `_get_next_sprite_name` (PySpine_SpriteSheetEditor.py,
      Editor_SpriteSheet.py) all collect the integers that follow the base
      name, sort them and walk up from 1 until the first gap.
    * "First free counter": `_generate_sprite_name`
      (old_pyspine/NewEditor_SpriteSheet.py) tries `sprite_1`, `sprite_2`,
      ... until the name is not a key.

    Python's `str(n)` and `int(s)` are modelled on decimal digits. */
module Names {
  import opened Types

  // ----- decimal digits ----------------------------------------------------

  predicate IsDigit(c: char) { '0' <= c <= '9' }

  function DigitChar(d: nat): (c: char)
    requires d < 10
    ensures IsDigit(c)
  {
    ('0' as int + d) as char
  }

  function DigitValue(c: char): (d: nat)
    requires IsDigit(c)
    ensures d < 10 && DigitChar(d) == c
  {
    c as int - '0' as int
  }

  lemma DigitRoundTrip(d: nat)
    requires d < 10
    ensures DigitValue(DigitChar(d)) == d
  {
  }

  /** `str(n)` for a non-negative integer: no leading zeros. */
  function Digits(n: nat): (s: string)
    decreases n
  {
    if n < 10 then [DigitChar(n)] else Digits(n / 10) + [DigitChar(n % 10)]
  }

  predicate AllDigits(s: string) { forall i :: 0 <= i < |s| ==> IsDigit(s[i]) }

  /** The value of a digit string, read from the left. */
  function DigitsValue(s: string): nat
    requires AllDigits(s)
  {
    if s == [] then 0 else DigitsValue(s[..|s| - 1]) * 10 + DigitValue(s[|s| - 1])
  }

  /** `int(s)` on a string of ASCII digits; anything else is the
      `ValueError` path, here `None`. */
  function ParseNat(s: string): (r: Option<nat>)
    ensures r.Some? <==> s != [] && AllDigits(s)
  {
    if s != [] && AllDigits(s) then Some(DigitsValue(s)) else None
  }

  /** `int(str(n)) == n`. */
  lemma {:induction false} ParseDigits(n: nat)
    ensures Digits(n) != [] && AllDigits(Digits(n))
    ensures ParseNat(Digits(n)) == Some(n)
    decreases n
  {
    if n >= 10 {
      ParseDigits(n / 10);
      var s := Digits(n);
      assert s[..|s| - 1] == Digits(n / 10);
      assert s[|s| - 1] == DigitChar(n % 10);
      assert AllDigits(s) by {
        forall i | 0 <= i < |s|
          ensures IsDigit(s[i])
        {
          if i < |s| - 1 {
            assert s[i] == Digits(n / 10)[i];
          }
        }
      }
      DigitRoundTrip(n % 10);
      assert DigitsValue(s) == DigitsValue(Digits(n / 10)) * 10 + n % 10;
    } else {
      var s := Digits(n);
      assert s[..0] == [];
      assert DigitsValue(s) == DigitValue(DigitChar(n));
    }
  }

  /** Different numbers print differently. */
  lemma DigitsInjective(a: nat, b: nat)
    requires Digits(a) == Digits(b)
    ensures a == b
  {
    ParseDigits(a);
    ParseDigits(b);
  }

  // ----- numeric suffixes --------------------------------------------------

  predicate StartsWith(s: string, prefix: string) {
    |prefix| <= |s| && s[..|prefix|] == prefix
  }

  /** The number that follows `base` in `name`, when the rest is numeric
      (`int(name[len(base_name):])` under `name.startswith(base_name)`). */
  function Suffix(name: string, base: string): Option<nat> {
    if StartsWith(name, base) then ParseNat(name[|base|..]) else None
  }

  lemma SuffixOfAllocated(base: string, k: nat)
    ensures Suffix(base + Digits(k), base) == Some(k)
  {
    var name := base + Digits(k);
    assert name[..|base|] == base;
    assert name[|base|..] == Digits(k);
    ParseDigits(k);
  }

  /** Some key of `keys` is `base` followed by `k`. */
  ghost predicate SuffixUsed(keys: set<string>, base: string, k: nat) {
    exists name :: name in keys && Suffix(name, base) == Some(k)
  }

  predicate SortedNats(s: seq<nat>) {
    forall i, j :: 0 <= i < j < |s| ==> s[i] <= s[j]
  }

  function InsertNat(s: seq<nat>, x: nat): (r: seq<nat>)
    requires SortedNats(s)
    ensures SortedNats(r)
    ensures multiset(r) == multiset(s) + multiset{x}
  {
    if s == [] then [x]
    else if x <= s[0] then [x] + s
    else
      var rest := InsertNat(s[1..], x);
      HeadBeforeInserted(s, x, rest);
      [s[0]] + rest
  }

  /** The head of the list stays in front of the list it heads once `x`,
      no smaller, is inserted behind it. */
  lemma HeadBeforeInserted(s: seq<nat>, x: nat, rest: seq<nat>)
    requires SortedNats(s) && s != [] && s[0] < x
    requires SortedNats(rest) && multiset(rest) == multiset(s[1..]) + multiset{x}
    ensures SortedNats([s[0]] + rest)
    ensures multiset([s[0]] + rest) == multiset(s) + multiset{x}
  {
    assert s == [s[0]] + s[1..];
    var r := [s[0]] + rest;
    forall i, j | 0 <= i < j < |r|
      ensures r[i] <= r[j]
    {
      assert r[j] == rest[j - 1];
      assert rest[j - 1] in multiset(rest);
      assert rest[j - 1] in s[1..] || rest[j - 1] == x;
      if i > 0 {
        assert r[i] == rest[i - 1];
      }
    }
    assert multiset(r) == multiset{s[0]} + multiset(rest);
  }

  /** `list.sort()` on the collected numbers. */
  function SortNats(s: seq<nat>): (r: seq<nat>)
    ensures SortedNats(r)
    ensures multiset(r) == multiset(s)
  {
    if s == [] then []
    else
      assert s == s[..|s| - 1] + [s[|s| - 1]];
      InsertNat(SortNats(s[..|s| - 1]), s[|s| - 1])
  }

  /** The walk over the sorted numbers: `next_number` starts at 1, steps
      over each number equal to it and stops at the first one above it. */
  method FirstGap(nums: seq<nat>) returns (next: nat)
    requires SortedNats(nums)
    ensures next >= 1 && next !in nums
    ensures forall j :: 1 <= j < next ==> j in nums
  {
    next := 1;
    var i := 0;
    while i < |nums|
      invariant 0 <= i <= |nums| && next >= 1
      invariant forall j :: 0 <= j < i ==> nums[j] < next
      invariant forall j :: 1 <= j < next ==> j in nums[..i]
    {
      assert nums[..i + 1] == nums[..i] + [nums[i]];
      if nums[i] == next {
        next := next + 1;
      } else if nums[i] > next {
        break;
      }
      i := i + 1;
    }
    forall j | 1 <= j < next
      ensures j in nums
    {
      assert j in nums[..i];
    }
  }

  /** `get_next_object_name` / `_get_next_bone_name` /
      `_get_next_sprite_name` over the keys of the edited dictionary:
      the name is `base` followed by the smallest positive number that no
      key carries after `base`, so it is never an existing key. */
  method NextFreeName(keys: set<string>, base: string) returns (name: string, k: nat)
    ensures k >= 1 && name == base + Digits(k)
    ensures !SuffixUsed(keys, base, k)
    ensures forall j :: 1 <= j < k ==> SuffixUsed(keys, base, j)
    ensures name !in keys
  {
    var nums: seq<nat> := [];
    var rest := keys;
    while rest != {}
      invariant rest <= keys
      invariant forall j :: j in nums ==> SuffixUsed(keys, base, j)
      invariant forall x :: x in keys && x !in rest && Suffix(x, base).Some? ==> Suffix(x, base).value in nums
      decreases |rest|
    {
      var x :| x in rest;
      var n := Suffix(x, base);
      if n.Some? {
        nums := nums + [n.value];
      }
      rest := rest - {x};
    }
    if nums == [] {
      name, k := base + "1", 1;
      assert Digits(1) == "1";
    } else {
      var sorted := SortNats(nums);
      assert forall j :: j in sorted <==> j in nums by {
        forall j ensures j in sorted <==> j in nums {
          assert j in sorted <==> multiset(sorted)[j] > 0;
          assert j in nums <==> multiset(nums)[j] > 0;
        }
      }
      k := FirstGap(sorted);
      name := base + Digits(k);
    }
    SuffixOfAllocated(base, k);
  }

  /** `_generate_sprite_name`: counts up from 1 until `prefix + str(n)` is
      not a key. */
  method FirstFreeCounter(keys: set<string>, prefix: string) returns (name: string, counter: nat)
    ensures counter >= 1 && name == prefix + Digits(counter)
    ensures name !in keys
    ensures forall j :: 1 <= j < counter ==> prefix + Digits(j) in keys
  {
    counter := 1;
    ghost var remaining := keys;
    while prefix + Digits(counter) in keys
      invariant counter >= 1 && remaining <= keys
      invariant forall j :: 1 <= j < counter ==> prefix + Digits(j) in keys
      invariant forall x :: x in keys && x !in remaining ==> Suffix(x, prefix).Some? && Suffix(x, prefix).value < counter
      decreases |remaining|
    {
      var x := prefix + Digits(counter);
      SuffixOfAllocated(prefix, counter);
      assert x in remaining;
      remaining := remaining - {x};
      counter := counter + 1;
    }
    name := prefix + Digits(counter);
  }
}
