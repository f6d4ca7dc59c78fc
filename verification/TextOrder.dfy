/** The order of strings, character by character. */
module TextOrder {

  predicate TextLess(x: string, y: string) {
    y != [] && (x == [] || x[0] < y[0] || (x[0] == y[0] && TextLess(x[1..], y[1..])))
  }

  lemma {:induction false} TextIrreflexive(x: string)
    ensures !TextLess(x, x)
  {
    if x != [] { TextIrreflexive(x[1..]); }
  }

  lemma {:induction false} TextTransitive(x: string, y: string, z: string)
    requires TextLess(x, y) && TextLess(y, z)
    ensures TextLess(x, z)
  {
    if x != [] && x[0] == y[0] && y[0] == z[0] { TextTransitive(x[1..], y[1..], z[1..]); }
  }

  /** At `i` the strings first differ, or the first of them ends. */
  predicate DiffersAt(x: string, y: string, i: nat) {
    i <= |x| && i < |y| && x[..i] == y[..i] && (i == |x| || x[i] < y[i])
  }

  /** Dictionary order: after a common beginning the smaller character, or the end, comes first. */
  lemma {:induction false} TextLessMeaning(x: string, y: string)
    ensures TextLess(x, y) <==> exists i: nat :: DiffersAt(x, y, i)
  {
    if y == [] {
    } else if x == [] || x[0] < y[0] {
      assert DiffersAt(x, y, 0);
    } else if x[0] == y[0] {
      TextLessMeaning(x[1..], y[1..]);
      if i: nat :| DiffersAt(x[1..], y[1..], i) {
        assert x[..i + 1] == [x[0]] + x[1..][..i] && y[..i + 1] == [y[0]] + y[1..][..i];
        assert DiffersAt(x, y, i + 1);
      }
      if i: nat :| DiffersAt(x, y, i) {
        if i > 0 {
          assert x[1..][..i - 1] == x[..i][1..] && y[1..][..i - 1] == y[..i][1..];
          assert DiffersAt(x[1..], y[1..], i - 1);
        }
      }
    }
  }

  lemma {:induction false} TextTotal(x: string, y: string)
    ensures x == y || TextLess(x, y) || TextLess(y, x)
  {
    if x != [] && y != [] && x[0] == y[0] {
      TextTotal(x[1..], y[1..]);
      assert x == [x[0]] + x[1..] && y == [y[0]] + y[1..];
    }
  }
}
