/** Text as ECMAScript compares it, and texts joined by a separator. */
module Text {

  /** `<` on strings: the first differing code unit decides, a proper prefix is smaller. */
  predicate TextBefore(a: string, b: string)
  {
    if b == "" then false
    else if a == "" then true
    else a[0] < b[0] || (a[0] == b[0] && TextBefore(a[1..], b[1..]))
  }

  lemma {:induction false} TextIsOrdered(a: string, b: string, c: string)
    ensures !TextBefore(a, a)
    ensures TextBefore(a, b) ==> !TextBefore(b, a)
    ensures TextBefore(a, b) && TextBefore(b, c) ==> TextBefore(a, c)
    ensures TextBefore(a, b) || TextBefore(b, a) || a == b
  {
    if a != "" && b != "" && c != "" {
      TextIsOrdered(a[1..], b[1..], c[1..]);
    } else if a != "" && b != "" {
      TextIsOrdered(a[1..], b[1..], "");
    } else if a != "" {
      TextIsOrdered(a[1..], "", "");
    }
    assert a != "" && b != "" && a[0] == b[0] && a[1..] == b[1..] ==> a == b by {
      assert a != "" ==> a == [a[0]] + a[1..];
      assert b != "" ==> b == [b[0]] + b[1..];
    }
  }

  /** The texts agree up to place `k`, where the first has the smaller code unit. */
  predicate SmallerAt(a: string, b: string, k: nat)
  {
    k < |a| && k < |b| && a[..k] == b[..k] && a[k] < b[k]
  }

  lemma {:induction false} TextBeforeExactly(a: string, b: string)
    ensures TextBefore(a, b) <==> (a <= b && a != b) || exists k: nat :: SmallerAt(a, b, k)
  {
    if a != "" && b != "" {
      TextBeforeExactly(a[1..], b[1..]);
      assert a == [a[0]] + a[1..] && b == [b[0]] + b[1..];
      if a[0] < b[0] {
        assert SmallerAt(a, b, 0);
      }
      if a[0] == b[0] {
        forall k: nat | SmallerAt(a[1..], b[1..], k) ensures SmallerAt(a, b, k + 1) {
          assert a[..k + 1] == [a[0]] + a[1..][..k] && b[..k + 1] == [b[0]] + b[1..][..k];
        }
      }
      forall k: nat | SmallerAt(a, b, k) && k > 0 ensures a[0] == b[0] && SmallerAt(a[1..], b[1..], k - 1) {
        assert a[0] == a[..k][0] && b[0] == b[..k][0];
        assert a[1..][..k - 1] == a[..k][1..] && b[1..][..k - 1] == b[..k][1..];
      }
    }
  }

  lemma {:induction false} TextBeforeConcat(a: string, x: string, b: string, y: string)
    requires |a| == |b|
    ensures TextBefore(a + x, b + y) <==> TextBefore(a, b) || (a == b && TextBefore(x, y))
  {
    if a == "" {
      assert a + x == x && b + y == y;
    } else {
      assert (a + x)[1..] == a[1..] + x && (b + y)[1..] == b[1..] + y;
      TextBeforeConcat(a[1..], x, b[1..], y);
      assert a == b <==> a[0] == b[0] && a[1..] == b[1..] by {
        assert a == [a[0]] + a[1..] && b == [b[0]] + b[1..];
      }
    }
  }

  /** The text of two parts with a separator between them. */
  function Joined(a: string, separator: char, x: string): string
  {
    a + ([separator] + x)
  }

  /** A joined text has one first part without the separator. */
  lemma {:induction false} JoinedSplits(a: string, x: string, b: string, y: string, separator: char)
    requires separator !in a && separator !in b && Joined(a, separator, x) == Joined(b, separator, y)
    ensures a == b && x == y
  {
    StartsWithSeparator(a, x, separator);
    StartsWithSeparator(b, y, separator);
    if a == "" {
      assert x == ([separator] + x)[1..] && y == ([separator] + y)[1..];
    } else {
      assert Joined(a, separator, x)[1..] == Joined(a[1..], separator, x);
      assert Joined(b, separator, y)[1..] == Joined(b[1..], separator, y);
      JoinedSplits(a[1..], x, b[1..], y, separator);
      assert a == [a[0]] + a[1..] && b == [b[0]] + b[1..];
    }
  }

  lemma StartsWithSeparator(a: string, x: string, separator: char)
    requires separator !in a
    ensures Joined(a, separator, x)[0] == separator <==> a == ""
    ensures a == "" ==> Joined(a, separator, x) == [separator] + x
    ensures a != "" ==> Joined(a, separator, x)[0] == a[0]
  {
  }
}
