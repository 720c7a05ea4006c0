/** Versioned names (cc/ssa.py:67-69, 144-149, 591-596): a version never
    collides with a version of another name, and its base can be recovered. */
module SsaNames {
  import opened Cfg

  const SEPARATOR := "_ssa"

  /** The name of version `k` of `base`. */
  function Versioned(base: string, k: nat): string {
    base + SEPARATOR + Decimal(k)
  }

  predicate IsDigit(c: char) { '0' <= c <= '9' }

  predicate AllDigits(s: string) {
    s != [] && forall i :: 0 <= i < |s| ==> IsDigit(s[i])
  }

  predicate SeparatorAt(name: string, i: int) {
    0 <= i && i + 4 <= |name| && name[i] == '_' && name[i + 1] == 's' && name[i + 2] == 's' && name[i + 3] == 'a'
  }

  /** The last place at or before `i` where the separator occurs, or -1. */
  function LastSeparator(name: string, i: int): int
    requires -1 <= i
    decreases i + 1
  {
    if i < 0 then -1 else if SeparatorAt(name, i) then i else LastSeparator(name, i - 1)
  }

  /** Strips a trailing version suffix. */
  function Deversion(name: string): string {
    var at := LastSeparator(name, |name|);
    if at > 0 && at + 4 <= |name| && AllDigits(name[at + 4..]) then name[..at] else name
  }

  lemma {:induction false} DecimalDigits(n: nat)
    ensures AllDigits(Decimal(n))
    decreases n
  {
    if n >= 10 {
      DecimalDigits(n / 10);
      var last := "0123456789"[n % 10];
      assert IsDigit(last);
    } else {
      assert IsDigit("0123456789"[n]);
    }
  }

  function ValueOfDigits(s: string): nat {
    if s == [] then 0
    else 10 * ValueOfDigits(s[..|s| - 1]) + if IsDigit(s[|s| - 1]) then (s[|s| - 1] - '0') as int else 0
  }

  lemma {:induction false} DecimalValue(n: nat)
    ensures ValueOfDigits(Decimal(n)) == n
    decreases n
  {
    if n >= 10 {
      DecimalValue(n / 10);
      var s := Decimal(n);
      assert s[..|s| - 1] == Decimal(n / 10);
      assert (s[|s| - 1] - '0') as int == n % 10;
    } else {
      var s := Decimal(n);
      assert s[..|s| - 1] == [];
      assert (s[|s| - 1] - '0') as int == n;
    }
  }

  /** Past the separator there are only digits, so it is the last one. */
  lemma {:induction false} LastIsOurs(base: string, digits: string, i: int)
    requires AllDigits(digits) && |base| <= i <= |base + SEPARATOR + digits|
    ensures LastSeparator(base + SEPARATOR + digits, i) == |base|
    decreases i
  {
    var name := base + SEPARATOR + digits;
    assert name[|base|] == '_' && name[|base| + 1] == 's' && name[|base| + 2] == 's' && name[|base| + 3] == 'a';
    if i > |base| {
      assert !SeparatorAt(name, i) by {
        if i < |base| + 4 && i < |name| {
          assert name[i] == SEPARATOR[i - |base|];
        } else if i < |name| {
          assert name[i] == digits[i - |base| - 4];
          assert IsDigit(name[i]);
        }
      }
      LastIsOurs(base, digits, i - 1);
    }
  }

  /** The name is `base`, the separator and at least one digit, and nothing but digits. */
  ghost predicate Suffixed(name: string, base: string, digits: string) {
    name == base + "_ssa" + digits && digits != "" && forall i :: 0 <= i < |digits| ==> '0' <= digits[i] <= '9'
  }

  /** Exactly the names of this form with a nonempty base are stripped, down to the base;
      any other name stays. */
  lemma DeversionIff(name: string)
    ensures forall base, digits :: base != "" && Suffixed(name, base, digits) ==> Deversion(name) == base
    ensures (forall base, digits :: base != "" ==> !Suffixed(name, base, digits)) ==> Deversion(name) == name
  {
    forall base, digits | base != "" && Suffixed(name, base, digits) ensures Deversion(name) == base {
      LastIsOurs(base, digits, |name|);
      assert name[|base| + 4..] == digits && name[..|base|] == base;
    }
    if Deversion(name) != name {
      var at := LastSeparator(name, |name|);
      SeparatorFound(name, |name|);
      assert name[at..at + 4] == "_ssa";
      assert name == name[..at] + "_ssa" + name[at + 4..];
      assert Suffixed(name, name[..at], name[at + 4..]);
    }
  }

  lemma {:induction false} SeparatorFound(name: string, i: int)
    requires -1 <= i
    ensures LastSeparator(name, i) >= 0 ==> SeparatorAt(name, LastSeparator(name, i))
    decreases i
  {
    if i >= 0 && !SeparatorAt(name, i) { SeparatorFound(name, i - 1); }
  }

  /** Stripping undoes versioning, for every nonempty name. */
  lemma DeversionUndoes(base: string, k: nat)
    requires base != ""
    ensures Deversion(Versioned(base, k)) == base
  {
    DecimalDigits(k);
    assert Suffixed(Versioned(base, k), base, Decimal(k));
    DeversionIff(Versioned(base, k));
  }

  /** Only the empty name is lost in its versions. */
  lemma VersionComesBackIff(base: string, k: nat)
    ensures Deversion(Versioned(base, k)) == base <==> base != ""
  {
    if base != "" {
      DeversionUndoes(base, k);
    } else {
      DecimalDigits(k);
      LastIsOurs(base, Decimal(k), |Versioned(base, k)|);
    }
  }

  /** An identifier of the program that looks like a version loses its suffix, and is
      the first version of what is left. */
  lemma LooksLikeVersion()
    ensures Deversion("x_ssa0") == "x" && Versioned("x", 0) == "x_ssa0"
  {
    assert Versioned("x", 0) == "x_ssa0";
    DeversionUndoes("x", 0);
  }

  /** Distinct names or numbers give distinct versions. */
  lemma VersionedInjective(a: string, i: nat, b: string, j: nat)
    requires a != "" && b != "" && Versioned(a, i) == Versioned(b, j)
    ensures a == b && i == j
  {
    DeversionUndoes(a, i);
    DeversionUndoes(b, j);
    assert Versioned(a, i)[|a| + 4..] == Decimal(i);
    assert Versioned(b, j)[|b| + 4..] == Decimal(j);
    DecimalValue(i);
    DecimalValue(j);
  }
}
