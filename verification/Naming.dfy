/** Names of credentials: trimming what was typed, numbering what was not. */
module Naming {
  import opened Decimal

  /** The white space that `trim` removes. */
  predicate Blank(c: char) {
    || '\U{0009}' <= c <= '\U{000d}' || c == '\U{0020}' || c == '\U{00a0}' || c == '\U{1680}'
    || '\U{2000}' <= c <= '\U{200a}'
    || c == '\U{2028}' || c == '\U{2029}' || c == '\U{202f}' || c == '\U{205f}' || c == '\U{3000}' || c == '\U{feff}'
  }

  function Trim(s: string): (r: string) {
    if s == "" then ""
    else if Blank(s[0]) then Trim(s[1..])
    else if Blank(s[|s| - 1]) then Trim(s[..|s| - 1])
    else s
  }

  predicate AllBlank(s: string) {
    forall i :: 0 <= i < |s| ==> Blank(s[i])
  }

  lemma TrimSteps(s: string)
    ensures s != "" && Blank(s[0]) ==> Trim(s) == Trim(s[1..])
    ensures s != "" && !Blank(s[0]) && Blank(s[|s| - 1]) ==> Trim(s) == Trim(s[..|s| - 1])
    ensures s == "" || (!Blank(s[0]) && !Blank(s[|s| - 1])) ==> Trim(s) == s
  {
  }

  /** Trimming takes off exactly the blanks at both ends. */
  lemma {:induction false} TrimIsExact(s: string) returns (front: string, back: string)
    ensures s == front + Trim(s) + back && AllBlank(front) && AllBlank(back)
    ensures Trim(s) != "" ==> !Blank(Trim(s)[0]) && !Blank(Trim(s)[|Trim(s)| - 1])
    decreases |s|
  {
    hide Blank, Trim;
    TrimSteps(s);
    front, back := "", "";
    if s != "" && Blank(s[0]) {
      front, back := TrimIsExact(s[1..]);
      assert s == [s[0]] + s[1..];
      assert [s[0]] + (front + Trim(s) + back) == ([s[0]] + front) + Trim(s) + back;
      front := [s[0]] + front;
    } else if s != "" && Blank(s[|s| - 1]) {
      front, back := TrimIsExact(s[..|s| - 1]);
      assert s == s[..|s| - 1] + [s[|s| - 1]];
      assert (front + Trim(s) + back) + [s[|s| - 1]] == front + Trim(s) + (back + [s[|s| - 1]]);
      back := back + [s[|s| - 1]];
    }
  }

  function Numbered(base: string, num: nat): (r: string) {
    base + " " + Numeral(num)
  }

  lemma NumberedDiffer(base: string, a: nat, b: nat)
    requires Numbered(base, a) == Numbered(base, b)
    ensures a == b
  {
    assert Numbered(base, a)[|base| + 1..] == Numeral(a);
    assert Numbered(base, b)[|base| + 1..] == Numeral(b);
    ValueOfNumeral(a);
    ValueOfNumeral(b);
  }

  ghost predicate NumberedFrom(base: string, num: nat, name: string) {
    exists k: nat :: k >= num && name == Numbered(base, k)
  }

  ghost function TakenFrom(names: set<string>, base: string, num: nat): (r: set<string>) {
    set n | n in names && NumberedFrom(base, num, n)
  }

  /** Passing over a taken number leaves fewer taken ones ahead. */
  lemma FewerTaken(names: set<string>, base: string, num: nat)
    requires Numbered(base, num) in names
    ensures |TakenFrom(names, base, num + 1)| < |TakenFrom(names, base, num)|
  {
    var name := Numbered(base, num);
    var before, after := TakenFrom(names, base, num), TakenFrom(names, base, num + 1);
    if name in after {
      var k: nat :| k >= num + 1 && name == Numbered(base, k);
      NumberedDiffer(base, num, k);
      assert false;
    }
    assert NumberedFrom(base, num, name);
    assert name in before;
    assert after <= before - {name};
    Fewer(after, before - {name});
  }

  lemma {:induction false} Fewer(a: set<string>, b: set<string>)
    requires a <= b
    ensures |a| <= |b|
    decreases |a|
  {
    if a != {} {
      var x :| x in a;
      Fewer(a - {x}, b - {x});
    }
  }

  /** The first number from `num` on that is not in use. */
  function FirstFree(names: set<string>, base: string, num: nat): (r: nat)
    decreases |TakenFrom(names, base, num)|
  {
    if Numbered(base, num) in names then
      FewerTaken(names, base, num);
      FirstFree(names, base, num + 1)
    else num
  }

  /** It is free, the ones before it are not, and it is at most as far away as there are names. */
  lemma {:induction false} FirstFreeIsFree(names: set<string>, base: string, num: nat)
    ensures var k := FirstFree(names, base, num);
            && num <= k <= num + |TakenFrom(names, base, num)| <= num + |names|
            && Numbered(base, k) !in names
            && forall j: nat :: num <= j < k ==> Numbered(base, j) in names
    decreases |TakenFrom(names, base, num)|
  {
    Fewer(TakenFrom(names, base, num), names);
    if Numbered(base, num) in names {
      FewerTaken(names, base, num);
      FirstFreeIsFree(names, base, num + 1);
    }
  }
}
