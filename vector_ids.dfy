/**
  The metadata keys of process_document: f"{file_path}_{i}", the path, an underscore,
  and the chunk's index in decimal.
 */
module VectorIds {

  predicate IsDigit(c: char)
  {
    '0' <= c <= '9'
  }

  predicate AllDigits(s: string)
  {
    forall c :: c in s ==> IsDigit(c)
  }

  function Digit(d: nat): (c: char)
    requires d < 10
    ensures IsDigit(c)
  {
    (('0' as int) + d) as char
  }

  /** str(n) for a non-negative int. */
  function NatToString(n: nat): (s: string)
    decreases n
  {
    if n < 10 then [Digit(n)] else NatToString(n / 10) + [Digit(n % 10)]
  }

  /** str(n) is made of digits only, and it has one digit exactly when n < 10. */
  lemma {:induction false} NatToStringShape(n: nat)
    ensures forall c :: c in NatToString(n) ==> IsDigit(c)
    ensures |NatToString(n)| == 1 <==> n < 10
    decreases n
  {
    if n >= 10 {
      NatToStringShape(n / 10);
    }
  }

  /** Different numbers have different decimal forms. */
  lemma {:induction false} NatToStringInjective(n: nat, m: nat)
    requires NatToString(n) == NatToString(m)
    ensures n == m
    decreases n
  {
    NatToStringShape(n);
    NatToStringShape(m);
    if n >= 10 && m >= 10 {
      var s := NatToString(n);
      assert s[..|s| - 1] == NatToString(n / 10);
      assert s[..|s| - 1] == NatToString(m / 10);
      NatToStringInjective(n / 10, m / 10);
      assert Digit(n % 10) == s[|s| - 1] == Digit(m % 10);
    }
  }

  /** f"{path}_{index}" */
  function VectorId(path: string, index: nat): string
  {
    path + "_" + NatToString(index)
  }

  /** A key is the path, one underscore, then at least one digit and nothing else. */
  lemma VectorIdShape(path: string, index: nat)
    ensures var id := VectorId(path, index);
            |id| > |path| + 1 && id[..|path|] == path && id[|path|] == '_' && AllDigits(id[|path| + 1..])
  {
    NatToStringShape(index);
    assert VectorId(path, index)[|path| + 1..] == NatToString(index);
  }

  /** The only underscore at or after the path's end is the separator. */
  lemma UnderscoreAt(p: string, i: nat, k: nat)
    requires |p| <= k < |VectorId(p, i)|
    ensures VectorId(p, i)[k] == '_' <==> k == |p|
  {
    NatToStringShape(i);
    if k > |p| {
      var d := NatToString(i);
      assert VectorId(p, i)[k] == d[k - |p| - 1];
      assert d[k - |p| - 1] in d;
    }
  }

  /** Two chunks share a metadata key only if they are the same chunk of the same path:
      the key's last underscore separates the path from the digits. */
  lemma VectorIdInjective(p: string, i: nat, q: string, j: nat)
    requires VectorId(p, i) == VectorId(q, j)
    ensures p == q && i == j
  {
    var s := VectorId(p, i);
    NatToStringShape(i);
    NatToStringShape(j);
    if |p| < |q| {
      UnderscoreAt(p, i, |q|);
      assert false;
    } else if |q| < |p| {
      UnderscoreAt(q, j, |p|);
      assert false;
    }
    assert p == s[..|p|] == q;
    assert NatToString(i) == s[|p| + 1..] == NatToString(j);
    NatToStringInjective(i, j);
  }
}
