/**
 * The parts of Python's `str` and `int` built-ins that the key rotator relies on:
 * `str.lower`, `str.startswith`, `str.split`, `str.join` and `int(str)`.
 * Characters are Dafny `char`s; case mapping and digits are the ASCII ones.
 */
module PyText {
  import opened Wrappers

  // ---------------------------------------------------------------- lower

  /** `str.lower()` on one character: ASCII capitals become small letters. */
  function LowerChar(c: char): char
  {
    if 'A' <= c <= 'Z' then (c as int + ('a' as int - 'A' as int)) as char else c
  }

  function Lower(s: string): string
  {
    seq(|s|, i requires 0 <= i < |s| => LowerChar(s[i]))
  }

  predicate StartsWith(s: string, prefix: string)
  {
    |prefix| <= |s| && s[..|prefix|] == prefix
  }

  // ---------------------------------------------------------------- split and join

  /** `s.split(c)` for a one-character separator: the fields between separators, empty ones included. */
  function Split(s: string, c: char): (r: seq<string>)
    ensures |r| >= 1
    decreases |s|
  {
    if |s| == 0 then [""]
    else
      var rest := Split(s[1..], c);
      if s[0] == c then [""] + rest else [[s[0]] + rest[0]] + rest[1..]
  }

  /** `sep.join(parts)`. */
  function Join(parts: seq<string>, sep: string): string
    decreases |parts|
  {
    if |parts| == 0 then ""
    else if |parts| == 1 then parts[0]
    else parts[0] + sep + Join(parts[1..], sep)
  }

  /** The fields `split` returns never contain the separator, and joining them back gives the input. */
  lemma {:induction false} SplitJoin(s: string, c: char)
    ensures Join(Split(s, c), [c]) == s
    ensures forall i :: 0 <= i < |Split(s, c)| ==> c !in Split(s, c)[i]
    decreases |s|
  {
    if |s| > 0 {
      var rest := Split(s[1..], c);
      SplitJoin(s[1..], c);
      if s[0] == c {
        assert Split(s, c) == [""] + rest;
        assert Join([""] + rest, [c]) == "" + [c] + Join(rest, [c]) by {
          assert ([""] + rest)[1..] == rest;
        }
        assert s == [c] + s[1..];
      } else {
        var parts := Split(s, c);
        assert parts == [[s[0]] + rest[0]] + rest[1..];
        if |rest| == 1 {
          assert Join(parts, [c]) == [s[0]] + rest[0];
        } else {
          assert parts[1..] == rest[1..];
          assert Join(rest, [c]) == rest[0] + [c] + Join(rest[1..], [c]);
          assert Join(parts, [c]) == [s[0]] + rest[0] + [c] + Join(rest[1..], [c]);
        }
        assert s == [s[0]] + s[1..];
        forall i | 0 <= i < |parts|
          ensures c !in parts[i]
        {
          if i == 0 {
            assert c !in rest[0];
            assert parts[0] == [s[0]] + rest[0];
          } else {
            assert parts[i] == rest[i];
          }
        }
      }
    }
  }

  lemma LowerTail(s: string)
    requires |s| > 0
    ensures Lower(s)[0] == LowerChar(s[0]) && Lower(s)[1..] == Lower(s[1..])
  {
  }

  lemma LowerCons(c: char, t: string)
    ensures Lower([c] + t) == [LowerChar(c)] + Lower(t)
  {
  }

  /** Splitting commutes with lowering, because lowering never touches or produces the separator `_`. */
  lemma {:induction false} SplitLower(s: string)
    ensures |Split(Lower(s), '_')| == |Split(s, '_')|
    ensures forall i :: 0 <= i < |Split(s, '_')| ==> Split(Lower(s), '_')[i] == Lower(Split(s, '_')[i])
    decreases |s|
  {
    if |s| > 0 {
      SplitLower(s[1..]);
      LowerTail(s);
      if s[0] == '_' {
        SplitLowerAtSeparator(s);
      } else {
        SplitLowerAtLetter(s);
      }
    }
  }

  /** The step of `SplitLower` when `s` starts with the separator. */
  lemma SplitLowerAtSeparator(s: string)
    requires |s| > 0 && s[0] == '_'
    requires Lower(s)[0] == LowerChar(s[0]) && Lower(s)[1..] == Lower(s[1..])
    requires |Split(Lower(s[1..]), '_')| == |Split(s[1..], '_')|
    requires forall i :: 0 <= i < |Split(s[1..], '_')| ==> Split(Lower(s[1..]), '_')[i] == Lower(Split(s[1..], '_')[i])
    ensures |Split(Lower(s), '_')| == |Split(s, '_')|
    ensures forall i :: 0 <= i < |Split(s, '_')| ==> Split(Lower(s), '_')[i] == Lower(Split(s, '_')[i])
  {
    var rest, lrest := Split(s[1..], '_'), Split(Lower(s[1..]), '_');
    var parts, lparts := Split(s, '_'), Split(Lower(s), '_');
    assert lparts == [""] + lrest;
    assert parts == [""] + rest;
    forall i | 0 < i < |parts|
      ensures lparts[i] == Lower(parts[i])
    {
      assert lparts[i] == lrest[i - 1] && parts[i] == rest[i - 1];
    }
  }

  /** The step of `SplitLower` when `s` starts with any other character. */
  lemma SplitLowerAtLetter(s: string)
    requires |s| > 0 && s[0] != '_'
    requires Lower(s)[0] == LowerChar(s[0]) && Lower(s)[1..] == Lower(s[1..])
    requires |Split(Lower(s[1..]), '_')| == |Split(s[1..], '_')|
    requires forall i :: 0 <= i < |Split(s[1..], '_')| ==> Split(Lower(s[1..]), '_')[i] == Lower(Split(s[1..], '_')[i])
    ensures |Split(Lower(s), '_')| == |Split(s, '_')|
    ensures forall i :: 0 <= i < |Split(s, '_')| ==> Split(Lower(s), '_')[i] == Lower(Split(s, '_')[i])
  {
    var rest, lrest := Split(s[1..], '_'), Split(Lower(s[1..]), '_');
    var parts, lparts := Split(s, '_'), Split(Lower(s), '_');
    assert LowerChar(s[0]) != '_';
    assert lparts == [[LowerChar(s[0])] + lrest[0]] + lrest[1..];
    assert parts == [[s[0]] + rest[0]] + rest[1..];
    LowerCons(s[0], rest[0]);
    forall i | 0 < i < |parts|
      ensures lparts[i] == Lower(parts[i])
    {
      assert lparts[i] == lrest[i] && parts[i] == rest[i];
    }
  }

  // ---------------------------------------------------------------- int()

  /** The characters `int()` strips around its argument (the ASCII ones). */
  predicate IsSpace(c: char)
  {
    c == ' ' || 9 <= c as int <= 13 || 28 <= c as int <= 31
  }

  predicate IsDigit(c: char)
  {
    '0' <= c <= '9'
  }

  /** A non-empty run of decimal digits. */
  predicate IsDigits(s: string)
  {
    |s| > 0 && forall i :: 0 <= i < |s| ==> IsDigit(s[i])
  }

  function TrimStart(s: string): string
    decreases |s|
  {
    if |s| > 0 && IsSpace(s[0]) then TrimStart(s[1..]) else s
  }

  function TrimEnd(s: string): string
    decreases |s|
  {
    if |s| > 0 && IsSpace(s[|s| - 1]) then TrimEnd(s[..|s| - 1]) else s
  }

  function Strip(s: string): string
  {
    TrimEnd(TrimStart(s))
  }

  function DigitValue(c: char): nat
    requires IsDigit(c)
  {
    c as int - '0' as int
  }

  /** The value of a run of decimal digits, most significant first (leading zeros allowed). */
  function DigitsValue(s: string): nat
    requires forall i :: 0 <= i < |s| ==> IsDigit(s[i])
    decreases |s|
  {
    if |s| == 0 then 0 else DigitsValue(s[..|s| - 1]) * 10 + DigitValue(s[|s| - 1])
  }

  /**
   * `int(s)` for a string: surrounding white space is ignored, then an optional sign and
   * one or more decimal digits. Anything else raises `ValueError`, modelled as `None`.
   */
  function ParseInt(s: string): Option<int>
  {
    var t := Strip(s);
    if IsDigits(t) then Some(DigitsValue(t))
    else if |t| > 0 && t[0] == '-' && IsDigits(t[1..]) then Some(-(DigitsValue(t[1..]) as int))
    else if |t| > 0 && t[0] == '+' && IsDigits(t[1..]) then Some(DigitsValue(t[1..]))
    else None
  }

  /** `str(n)` for a natural number. */
  function NatDecimal(n: nat): (r: string)
    ensures IsDigits(r)
    decreases n
  {
    if n < 10 then ['0' + (n as char)] else NatDecimal(n / 10) + ['0' + ((n % 10) as char)]
  }

  /** `str(n)` for an integer. */
  function Decimal(n: int): string
  {
    if n < 0 then "-" + NatDecimal(-n) else NatDecimal(n)
  }

  lemma {:induction false} NatDecimalValue(n: nat)
    ensures DigitsValue(NatDecimal(n)) == n
    decreases n
  {
    if n >= 10 {
      NatDecimalValue(n / 10);
      var s := NatDecimal(n);
      assert s[..|s| - 1] == NatDecimal(n / 10);
    }
  }

  lemma StripDigits(s: string)
    requires |s| > 0 && !IsSpace(s[0]) && !IsSpace(s[|s| - 1])
    ensures Strip(s) == s
  {
  }

  /** `int(str(n)) == n`: every integer written in decimal is read back as itself. */
  lemma ParseIntDecimal(n: int)
    ensures ParseInt(Decimal(n)) == Some(n)
  {
    var d := NatDecimal(if n < 0 then -n else n);
    NatDecimalValue(if n < 0 then -n else n);
    if n < 0 {
      var s := "-" + d;
      assert s[1..] == d;
      StripDigits(s);
      assert !IsDigits(s);
    } else {
      StripDigits(d);
    }
  }

  // ---------------------------------------------------------------- int() ignores case

  lemma {:induction false} TrimStartLower(s: string)
    ensures TrimStart(Lower(s)) == Lower(TrimStart(s))
    decreases |s|
  {
    if |s| > 0 {
      assert Lower(s)[1..] == Lower(s[1..]);
      if IsSpace(s[0]) {
        TrimStartLower(s[1..]);
      }
    }
  }

  lemma {:induction false} TrimEndLower(s: string)
    ensures TrimEnd(Lower(s)) == Lower(TrimEnd(s))
    decreases |s|
  {
    if |s| > 0 {
      assert Lower(s)[..|s| - 1] == Lower(s[..|s| - 1]);
      if IsSpace(s[|s| - 1]) {
        TrimEndLower(s[..|s| - 1]);
      }
    }
  }

  lemma LowerDigits(s: string)
    ensures IsDigits(Lower(s)) <==> IsDigits(s)
    ensures IsDigits(s) ==> Lower(s) == s
  {
    if IsDigits(Lower(s)) {
      forall i | 0 <= i < |s| ensures IsDigit(s[i]) {
        assert IsDigit(Lower(s)[i]);
      }
    }
  }

  /** `int()` reads the same number from a string and from its lower-cased form. */
  lemma ParseIntLower(s: string)
    ensures ParseInt(Lower(s)) == ParseInt(s)
  {
    var t := Strip(s);
    TrimStartLower(s);
    TrimEndLower(TrimStart(s));
    assert Strip(Lower(s)) == Lower(t);
    LowerDigits(t);
    if |t| > 0 {
      assert Lower(t)[1..] == Lower(t[1..]);
      LowerDigits(t[1..]);
      assert Lower(t)[0] == LowerChar(t[0]);
    }
  }

  // ---------------------------------------------------------------- dict

  /**
   * A Python `dict`: its keys in insertion order, and the value stored under each.
   * Assigning to a present key keeps its place; `pop` removes the key from both.
   */
  datatype Dict<K, V> = Dict(keys: seq<K>, items: map<K, V>)

  predicate Distinct<K(==)>(s: seq<K>)
  {
    forall i, j :: 0 <= i < j < |s| ==> s[i] != s[j]
  }

  ghost predicate DictValid<K(!new), V>(d: Dict<K, V>)
  {
    Distinct(d.keys) && forall k :: k in d.items <==> k in d.keys
  }

  function EmptyDict<K(!new), V>(): (d: Dict<K, V>)
    ensures DictValid(d)
  {
    Dict([], map[])
  }

  /** `d[k] = v`. */
  function DictPut<K(!new), V>(d: Dict<K, V>, k: K, v: V): (r: Dict<K, V>)
    requires DictValid(d)
    ensures DictValid(r) && r.items == d.items[k := v]
    ensures k in d.items ==> r.keys == d.keys
    ensures k !in d.items ==> r.keys == d.keys + [k]
  {
    Dict(if k in d.items then d.keys else d.keys + [k], d.items[k := v])
  }

  /** `s` without the occurrences of `x`, the rest in order. */
  function Without<K(==,!new)>(s: seq<K>, x: K): (r: seq<K>)
    ensures forall y :: y in r <==> y in s && y != x
    ensures Distinct(s) ==> Distinct(r)
    decreases |s|
  {
    if |s| == 0 then []
    else if s[0] == x then Without(s[1..], x)
    else
      assert Distinct(s) ==> s[0] !in s[1..];
      [s[0]] + Without(s[1..], x)
  }

  /** `d.pop(k)`, the popped value dropped. */
  function DictPop<K(!new), V>(d: Dict<K, V>, k: K): (r: Dict<K, V>)
    requires DictValid(d)
    ensures DictValid(r) && r.items == d.items - {k}
  {
    Dict(Without(d.keys, k), d.items - {k})
  }

  // ---------------------------------------------------------------- sorted

  predicate NonDecreasing(s: seq<int>)
  {
    forall i, j :: 0 <= i < j < |s| ==> s[i] <= s[j]
  }

  predicate Increasing(s: seq<int>)
  {
    forall i, j :: 0 <= i < j < |s| ==> s[i] < s[j]
  }

  function Insert(x: int, s: seq<int>): (r: seq<int>)
    requires NonDecreasing(s)
    ensures NonDecreasing(r) && |r| == |s| + 1
    ensures forall y :: y in r <==> y == x || y in s
    decreases |s|
  {
    if |s| == 0 then [x]
    else if x <= s[0] then [x] + s
    else
      var rest := Insert(x, s[1..]);
      assert forall y :: y in s <==> y == s[0] || y in s[1..];
      assert forall i :: 0 <= i < |rest| ==> s[0] <= rest[i] by {
        forall i | 0 <= i < |rest| ensures s[0] <= rest[i] {
          assert rest[i] in rest;
        }
      }
      [s[0]] + rest
  }

  /** `sorted(s)` for a list of integers: the same elements, in non-decreasing order. */
  function Sorted(s: seq<int>): (r: seq<int>)
    ensures NonDecreasing(r) && |r| == |s|
    ensures forall y :: y in r <==> y in s
    decreases |s|
  {
    if |s| == 0 then []
    else
      assert forall y :: y in s <==> y == s[0] || y in s[1..];
      Insert(s[0], Sorted(s[1..]))
  }

  lemma {:induction false} InsertIncreasing(x: int, s: seq<int>)
    requires Increasing(s) && x !in s
    ensures Increasing(Insert(x, s))
    decreases |s|
  {
    if |s| > 0 && x > s[0] {
      InsertIncreasing(x, s[1..]);
      var rest := Insert(x, s[1..]);
      forall i | 0 <= i < |rest| ensures s[0] < rest[i] {
        assert rest[i] in rest;
      }
    }
  }

  /** `sorted` returns a permutation of its input: every element as often as it occurs. */
  lemma {:induction false} SortedPermutation(s: seq<int>)
    ensures multiset(Sorted(s)) == multiset(s)
    decreases |s|
  {
    if |s| > 0 {
      SortedPermutation(s[1..]);
      InsertPermutation(s[0], Sorted(s[1..]));
      assert s == [s[0]] + s[1..];
    }
  }

  lemma {:induction false} InsertPermutation(x: int, s: seq<int>)
    requires NonDecreasing(s)
    ensures multiset(Insert(x, s)) == multiset(s) + multiset{x}
    decreases |s|
  {
    if |s| > 0 && x > s[0] {
      InsertPermutation(x, s[1..]);
      assert s == [s[0]] + s[1..];
    }
  }

  /** Sorting distinct integers gives them in strictly increasing order. */
  lemma {:induction false} SortedDistinct(s: seq<int>)
    requires Distinct(s)
    ensures Increasing(Sorted(s))
    decreases |s|
  {
    if |s| > 0 {
      SortedDistinct(s[1..]);
      assert s[0] !in s[1..];
      InsertIncreasing(s[0], Sorted(s[1..]));
    }
  }

  /** Two strictly increasing lists with the same elements are the same list. */
  lemma {:induction false} IncreasingUnique(a: seq<int>, b: seq<int>)
    requires Increasing(a) && Increasing(b)
    requires forall x :: x in a <==> x in b
    ensures a == b
    decreases |a|
  {
    assert |a| > 0 ==> a[0] in a;
    assert |b| > 0 ==> b[0] in b;
    if |a| > 0 && |b| > 0 {
      var i :| 0 <= i < |a| && a[i] == b[0];
      var j :| 0 <= j < |b| && b[j] == a[0];
      assert a[0] <= a[i] && b[0] <= b[j];
      forall x
        ensures x in a[1..] <==> x in b[1..]
      {
        if x in a[1..] {
          assert x in a && x != a[0];
          assert x in b;
          assert x != b[0];
        }
        if x in b[1..] {
          assert x in b && x != b[0];
          assert x in a;
          assert x != a[0];
        }
      }
      IncreasingUnique(a[1..], b[1..]);
      assert a == [a[0]] + a[1..];
      assert b == [b[0]] + b[1..];
    }
  }
}
