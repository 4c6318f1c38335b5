/** Strings as the program compares them: sequences of UTF-16 code units in lexicographic order. */
module Text {

  type Text = seq<nat>

  predicate Less(a: Text, b: Text) {
    if b == [] then false
    else if a == [] then true
    else a[0] < b[0] || (a[0] == b[0] && Less(a[1..], b[1..]))
  }

  lemma {:induction false} LessIsStrictTotal(a: Text, b: Text)
    ensures Less(a, b) ==> a != b && !Less(b, a)
    ensures a != b ==> Less(a, b) || Less(b, a)
  {
    if a != [] && b != [] {
      LessIsStrictTotal(a[1..], b[1..]);
      assert a == [a[0]] + a[1..] && b == [b[0]] + b[1..];
    }
  }

  /** `a` is smaller by position `n`: it ends there, or has the smaller unit there, and agrees with `b` before. */
  predicate SmallerAt(a: Text, b: Text, n: nat) {
    n <= |a| && n < |b| && (n < |a| ==> a[n] < b[n]) && forall i :: 0 <= i < n ==> a[i] == b[i]
  }

  // The order, position by position: a proper prefix is smaller, and otherwise the first difference decides.
  lemma {:induction false} LessExactly(a: Text, b: Text)
    ensures Less(a, b) <==> exists n: nat :: SmallerAt(a, b, n)
  {
    if a != [] && b != [] && a[0] == b[0] {
      LessExactly(a[1..], b[1..]);
      if Less(a, b) {
        var n: nat :| SmallerAt(a[1..], b[1..], n);
        assert SmallerAt(a, b, n + 1);
      }
      forall n: nat | SmallerAt(a, b, n)
        ensures SmallerAt(a[1..], b[1..], n - 1)
      {
        assert n > 0;
      }
    } else if Less(a, b) {
      assert SmallerAt(a, b, 0);
    }
  }

  lemma {:induction false} LessIsTransitive(a: Text, b: Text, c: Text)
    requires Less(a, b) && Less(b, c)
    ensures Less(a, c)
  {
    if a != [] && a[0] == b[0] == c[0] {
      LessIsTransitive(a[1..], b[1..], c[1..]);
    }
  }

  /**
   An address: `text` as written and `key` its normalised form (trimmed and lowercased). Pairs of
   this kind cover whatever normalisation is in use, as long as both sides use the same one.
   */
  datatype Address = Address(key: Text, text: Text)
}
