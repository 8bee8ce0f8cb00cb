/** Shared vocabulary: optional values, request outcomes and ordered key sets. */
module Prelude {

  datatype Option<+T> = None | Some(value: T)

  /** What an HTTP-facing operation ends in: a value, an error response, or a
      database constraint violation (which rolls the whole request back). */
  datatype Outcome<+T> = Ok(value: T) | HttpError(status: nat, detail: string) | IntegrityError

  /** What a boundary check ends in: open with a value, or rejected for a reason code. */
  datatype Gate<+T> = Open(value: T) | Rejected(reason: string)

  predicate IsLeast(p: nat, s: set<nat>) {
    p in s && forall q | q in s :: p <= q
  }

  /** Every non-empty set of primary keys has a least element. */
  lemma {:induction false} LeastExists(s: set<nat>) returns (p: nat)
    requires s != {}
    ensures IsLeast(p, s)
    decreases |s|
  {
    var x :| x in s;
    var rest := s - {x};
    assert s == rest + {x};
    p := x;
    if rest != {} {
      var q := LeastExists(rest);
      p := if q < x then q else x;
    }
  }

  /** The row `.order_by("pk").first()` selects among matching primary keys. */
  function Least(s: set<nat>): (p: nat)
    requires s != {}
    ensures IsLeast(p, s)
  {
    assert exists p :: IsLeast(p, s) by { var p := LeastExists(s); }
    var p :| IsLeast(p, s);
    p
  }

  function First(s: set<nat>): (r: Option<nat>)
    ensures r == None <==> s == {}
    ensures r.Some? ==> IsLeast(r.value, s)
  {
    if s == {} then None else Some(Least(s))
  }

  predicate Ascending(s: seq<nat>) {
    forall i, j :: 0 <= i < j < |s| ==> s[i] < s[j]
  }

  /** `order_by("pk")[:n]`: the n smallest keys of s, in order. */
  function Smallest(s: set<nat>, n: nat): (r: seq<nat>)
    ensures Ascending(r) && |r| <= n
    ensures forall p :: p in r ==> p in s
    ensures r == [] <==> s == {} || n == 0
    ensures forall p, q :: p in s && p !in r && q in r ==> q < p
    ensures (exists p :: p in s && p !in r) ==> |r| == n
    decreases n
  {
    if s == {} || n == 0 then []
    else
      var p := Least(s);
      var rest := Smallest(s - {p}, n - 1);
      assert forall i :: 0 <= i < |rest| ==> rest[i] in rest;
      [p] + rest
  }

  // ---------------------------------------------------------------- text order

  /** Code-point order on strings, the order `sorted` uses. */
  predicate TextLe(a: string, b: string) {
    a == "" || (b != "" && (a[0] < b[0] || (a[0] == b[0] && TextLe(a[1..], b[1..]))))
  }

  lemma {:induction false} TextLeTotal(a: string, b: string)
    ensures TextLe(a, b) || TextLe(b, a)
    ensures TextLe(a, b) && TextLe(b, a) ==> a == b
  {
    if a != "" && b != "" && a[0] == b[0] {
      TextLeTotal(a[1..], b[1..]);
      assert a == [a[0]] + a[1..] && b == [b[0]] + b[1..];
    }
  }

  lemma {:induction false} TextLeTransitive(a: string, b: string, c: string)
    requires TextLe(a, b) && TextLe(b, c)
    ensures TextLe(a, c)
  {
    if a != "" && a[0] == b[0] && b[0] == c[0] {
      TextLeTransitive(a[1..], b[1..], c[1..]);
    }
  }

  predicate IsFirstText(x: string, s: set<string>) {
    x in s && forall y | y in s :: TextLe(x, y)
  }

  lemma {:induction false} FirstTextExists(s: set<string>) returns (x: string)
    requires s != {}
    ensures IsFirstText(x, s)
    decreases |s|
  {
    var z :| z in s;
    var rest := s - {z};
    assert s == rest + {z};
    x := z;
    TextLeTotal(z, z);
    if rest != {} {
      var y := FirstTextExists(rest);
      TextLeTotal(y, z);
      x := if TextLe(y, z) then y else z;
      forall w | w in s ensures TextLe(x, w) {
        if w in rest { TextLeTransitive(x, y, w); }
      }
    }
  }

  function FirstText(s: set<string>): (x: string)
    requires s != {}
    ensures IsFirstText(x, s)
  {
    assert exists x :: IsFirstText(x, s) by { var x := FirstTextExists(s); }
    assert forall x, y :: IsFirstText(x, s) && IsFirstText(y, s) ==> x == y by {
      forall x, y | IsFirstText(x, s) && IsFirstText(y, s) ensures x == y { TextLeTotal(x, y); }
    }
    var x :| IsFirstText(x, s);
    x
  }

  /** `sorted(s)`. */
  function Sorted(s: set<string>): (r: seq<string>)
    ensures forall i, j :: 0 <= i < j < |r| ==> TextLe(r[i], r[j]) && r[i] != r[j]
    ensures forall x :: x in r <==> x in s
  {
    if s == {} then []
    else
      var x := FirstText(s);
      var rest := Sorted(s - {x});
      assert forall i :: 0 <= i < |rest| ==> rest[i] in rest;
      [x] + rest
  }
}
