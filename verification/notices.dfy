/**
 The display's notification list: a notice is appended when something
 happens, and later every notice carrying its id is dropped. The id (the
 current time in milliseconds, as text) and the three-second delay before
 the drop are supplied by the caller.
 */
module Notices {

  datatype Kind = Info | Success | Warning

  datatype Notice = Notice(id: string, message: string, kind: Kind)

  /** How many notices in `s` carry `id`. */
  function CountId(s: seq<Notice>, id: string): nat {
    if |s| == 0 then 0 else CountId(s[..|s| - 1], id) + (if s[|s| - 1].id == id then 1 else 0)
  }

  /** `addNotification`: the new notice goes to the end; everything before it stays. */
  function Notify(s: seq<Notice>, id: string, message: string, kind: Kind): (r: seq<Notice>)
    ensures |r| == |s| + 1
    ensures r[..|s|] == s
    ensures r[|s|] == Notice(id, message, kind)
  {
    s + [Notice(id, message, kind)]
  }

  /**
   The expiry callback, `prev.filter((n) => n.id !== id)`: keeps exactly the
   notices whose id differs, in their original order.
   */
  function Expire(s: seq<Notice>, id: string): (r: seq<Notice>)
    ensures forall n :: n in r <==> n in s && n.id != id
    ensures |r| == |s| - CountId(s, id)
    decreases |s|
  {
    if |s| == 0 then []
    else
      var rest := Expire(s[..|s| - 1], id);
      var last := s[|s| - 1];
      assert s == s[..|s| - 1] + [last];
      if last.id == id then rest else rest + [last]
  }

  /** Expiring distributes over concatenation, so the notices that remain keep their relative order. */
  lemma {:induction false} ExpireConcat(a: seq<Notice>, b: seq<Notice>, id: string)
    ensures Expire(a + b, id) == Expire(a, id) + Expire(b, id)
    decreases |b|
  {
    if |b| > 0 {
      var b' := b[..|b| - 1];
      assert (a + b)[..|a + b| - 1] == a + b';
      assert (a + b)[|a + b| - 1] == b[|b| - 1];
      ExpireConcat(a, b', id);
    } else {
      assert a + b == a;
    }
  }

  /** A list with no notice of that id is left as it is. */
  lemma {:induction false} ExpireAbsent(s: seq<Notice>, id: string)
    requires forall n :: n in s ==> n.id != id
    ensures Expire(s, id) == s
    decreases |s|
  {
    if |s| > 0 {
      assert s == s[..|s| - 1] + [s[|s| - 1]];
      ExpireAbsent(s[..|s| - 1], id);
    }
  }

  /** Expiring the same id a second time changes nothing. */
  lemma ExpireIdempotent(s: seq<Notice>, id: string)
    ensures Expire(Expire(s, id), id) == Expire(s, id)
  {
    ExpireAbsent(Expire(s, id), id);
  }

  /**
   Adding a notice whose id is fresh and later expiring that id gives back the
   list as it was before the notice was added.
   */
  lemma NotifyThenExpire(s: seq<Notice>, id: string, message: string, kind: Kind)
    requires forall n :: n in s ==> n.id != id
    ensures Expire(Notify(s, id, message, kind), id) == s
  {
    ExpireAbsent(s, id);
  }

  /**
   Two notices added within the same millisecond share their id, so the first
   expiry removes both of them, whatever was added in between; the notices in
   between lose only those that carry the same id.
   */
  lemma SameIdExpiresTogether(s: seq<Notice>, mid: seq<Notice>, id: string, m1: string, m2: string, k1: Kind, k2: Kind)
    requires forall n :: n in s ==> n.id != id
    ensures Expire(Notify(Notify(s, id, m1, k1) + mid, id, m2, k2), id) == s + Expire(mid, id)
  {
    var n1, n2 := Notice(id, m1, k1), Notice(id, m2, k2);
    assert Notify(Notify(s, id, m1, k1) + mid, id, m2, k2) == (s + [n1] + mid) + [n2];
    ExpireConcat(s + [n1] + mid, [n2], id);
    ExpireConcat(s + [n1], mid, id);
    ExpireConcat(s, [n1], id);
    ExpireAbsent(s, id);
    assert [n1][..0] == [] && [n2][..0] == [];
  }

  /** `handleCraft`: announces the recipe by name with a success notice; it touches nothing else. */
  function CraftNotice(s: seq<Notice>, id: string, recipeName: string): (r: seq<Notice>)
    ensures |r| == |s| + 1 && r[..|s|] == s
    ensures r[|s|].kind == Success && r[|s|].id == id
    ensures r[|s|].message == "Crafted " + recipeName + "!"
  {
    Notify(s, id, "Crafted " + recipeName + "!", Success)
  }

}
