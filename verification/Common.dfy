/** Small datatypes shared by the other modules. */
module Common {

  datatype Option<+T> = None | Some(value: T)

  function Elements<T>(s: seq<T>): set<T> {
    set x | x in s
  }

  lemma ElementsOfPrefix<T>(s: seq<T>, i: nat)
    requires i < |s|
    ensures Elements(s[..i + 1]) == Elements(s[..i]) + {s[i]}
  {
    assert s[..i + 1] == s[..i] + [s[i]];
  }

  lemma ElementsOfAppend<T>(s: seq<T>, x: T)
    ensures Elements(s + [x]) == Elements(s) + {x}
  {
  }

  /** The decimal digits of a number. */
  function Itoa(n: nat): string {
    (if n >= 10 then Itoa(n / 10) else "") + [(n % 10 + '0' as int) as char]
  }

  lemma {:induction false} ItoaInjective(m: nat, n: nat)
    requires Itoa(m) == Itoa(n)
    ensures m == n
  {
    var a, b := Itoa(m), Itoa(n);
    assert a[|a| - 1] == b[|b| - 1] && a[..|a| - 1] == b[..|b| - 1];
    assert m % 10 == n % 10;
    if m >= 10 && n >= 10 {
      assert a[..|a| - 1] == Itoa(m / 10) && b[..|b| - 1] == Itoa(n / 10);
      ItoaInjective(m / 10, n / 10);
    }
  }
}
