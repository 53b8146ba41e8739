/** Optional values, and the present ones of a sequence of them. */
module Options {

  datatype Option<+T> = None | Some(value: T)

  function Seq<T>(o: Option<T>): seq<T> {
    if o.Some? then [o.value] else []
  }

  /** The values that are present, in order. */
  function Somes<T>(s: seq<Option<T>>): seq<T> {
    if s == [] then [] else Somes(s[..|s| - 1]) + Seq(s[|s| - 1])
  }

  lemma {:induction false} SomesMonotone<T>(s: seq<Option<T>>, a: nat, b: nat)
    requires a <= b <= |s|
    ensures |Somes(s[..a])| <= |Somes(s[..b])|
  {
    if a < b {
      SomesMonotone(s, a, b - 1);
      assert s[..b][..b - 1] == s[..b - 1];
    }
  }

  /** Where a present value ends up. */
  lemma {:induction false} SomeAt<T>(s: seq<Option<T>>, a: nat)
    requires a < |s| && s[a].Some?
    ensures |Somes(s[..a])| < |Somes(s)| && Somes(s)[|Somes(s[..a])|] == s[a].value
  {
    if a < |s| - 1 {
      SomeAt(s[..|s| - 1], a);
      assert s[..|s| - 1][..a] == s[..a];
    }
  }

  /** Where the p-th present value comes from. */
  lemma {:induction false} IndexOfSome<T>(s: seq<Option<T>>, p: nat) returns (a: nat)
    requires p < |Somes(s)|
    ensures a < |s| && |Somes(s[..a])| == p && s[a] == Some(Somes(s)[p])
  {
    var init := s[..|s| - 1];
    if p < |Somes(init)| {
      a := IndexOfSome(init, p);
      assert init[..a] == s[..a];
    } else {
      a := |s| - 1;
    }
  }

  lemma IndexesInOrder<T>(s: seq<Option<T>>, a: nat, b: nat)
    requires a < |s| && b < |s| && |Somes(s[..a])| < |Somes(s[..b])|
    ensures a < b
  {
    if b <= a {
      SomesMonotone(s, b, a);
    }
  }
}
