/** Bytewise order on strings and strictly sorted sequences, as the standard sort leaves them. */
module SortedText {
  predicate Before(a: string, b: string)
    decreases |a|
  {
    b != "" && (a == "" || a[0] < b[0] || (a[0] == b[0] && Before(a[1..], b[1..])))
  }

  lemma {:induction false} Irreflexive(a: string)
    ensures !Before(a, a)
    decreases |a|
  {
    if a != "" { Irreflexive(a[1..]); }
  }

  lemma {:induction false} Transitive(a: string, b: string, c: string)
    requires Before(a, b) && Before(b, c)
    ensures Before(a, c)
    decreases |a|
  {
    if a != "" && a[0] == b[0] == c[0] {
      Transitive(a[1..], b[1..], c[1..]);
    }
  }

  lemma {:induction false} Connected(a: string, b: string)
    ensures Before(a, b) || a == b || Before(b, a)
    decreases |a|
  {
    if a != "" && b != "" && a[0] == b[0] {
      Connected(a[1..], b[1..]);
      if a[1..] == b[1..] {
        assert a == [a[0]] + a[1..] && b == [b[0]] + b[1..];
      }
    }
  }

  predicate StrictlySorted(s: seq<string>) {
    forall i, j :: 0 <= i < j < |s| ==> Before(s[i], s[j])
  }

  /** Adds a string at its place unless it is there already. */
  function Insert(x: string, s: seq<string>): (r: seq<string>)
    requires StrictlySorted(s)
    ensures StrictlySorted(r) && forall y :: y in r <==> y == x || y in s
  {
    if s == [] then [x]
    else if x == s[0] then s
    else if Before(x, s[0]) then
      assert forall j :: 0 <= j < |s| ==> Before(x, s[j]) by {
        forall j | 0 <= j < |s| ensures Before(x, s[j]) {
          if j > 0 { Transitive(x, s[0], s[j]); }
        }
      }
      [x] + s
    else
      Connected(x, s[0]);
      var rest := Insert(x, s[1..]);
      assert forall y :: y in rest ==> Before(s[0], y);
      assert forall y :: y in s <==> y == s[0] || y in s[1..];
      [s[0]] + rest
  }

  /** The strictly sorted sequence of the given strings, without repeats. */
  function SortedSet(s: seq<string>): (r: seq<string>)
    ensures StrictlySorted(r) && forall y :: y in r <==> y in s
  {
    if s == [] then []
    else
      assert forall y :: y in s <==> y == s[|s| - 1] || y in s[..|s| - 1];
      Insert(s[|s| - 1], SortedSet(s[..|s| - 1]))
  }

  /** A strictly sorted sequence is determined by its elements. */
  lemma {:induction false} SortedIsUnique(a: seq<string>, b: seq<string>)
    requires StrictlySorted(a) && StrictlySorted(b) && forall y :: y in a <==> y in b
    ensures a == b
    decreases |a|
  {
    if a == [] || b == [] {
      HasSome(a);
      HasSome(b);
    } else {
      assert a[0] in b;
      assert b[0] in a;
      FirstIsLeast(a, b);
      forall y ensures y in a[1..] <==> y in b[1..] {
        Irreflexive(a[0]);
        assert y in a <==> y == a[0] || y in a[1..];
        assert y in b <==> y == b[0] || y in b[1..];
        if y in a[1..] || y in b[1..] { assert Before(a[0], y); }
      }
      SortedIsUnique(a[1..], b[1..]);
      assert a == [a[0]] + a[1..] && b == [b[0]] + b[1..];
    }
  }

  lemma HasSome(a: seq<string>)
    ensures a != [] ==> exists y :: y in a
  {
    if a != [] { assert a[0] in a; }
  }

  lemma FirstIsLeast(a: seq<string>, b: seq<string>)
    requires StrictlySorted(a) && StrictlySorted(b) && a != [] && b != [] && a[0] in b && b[0] in a
    ensures a[0] == b[0]
  {
    var i :| 0 <= i < |b| && b[i] == a[0];
    var j :| 0 <= j < |a| && a[j] == b[0];
    if i > 0 && j > 0 {
      Transitive(a[0], b[0], a[0]);
      Irreflexive(a[0]);
    }
  }
}
