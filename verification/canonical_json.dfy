// Canonical JSON: members sorted at every depth before the text is made
// (canonicalJson and sortJson in packages/protocol-ts/src/authSignatures.ts).
module CanonicalJson {
  import opened JsonText
  import opened Options

  // ---- The order of members ----

  /** Comparison of strings by their code units. */
  predicate Less(a: Text, b: Text) {
    b != [] && (a == [] || a[0] < b[0] || (a[0] == b[0] && Less(a[1..], b[1..])))
  }

  /** A key that reads as an array index, which an object lists before its other keys. */
  predicate IndexKey(k: Text) {
    k != [] && (forall i :: 0 <= i < |k| ==> 0x30 <= k[i] < 0x3a) && (k[0] == 0x30 ==> |k| == 1)
    && (|k| < 10 || (|k| == 10 && Less(k, MAX_INDEX)))
  }

  /** 4294967295, the first number that is no array index. */
  const MAX_INDEX: Text := [0x34, 0x32, 0x39, 0x34, 0x39, 0x36, 0x37, 0x32, 0x39, 0x35]

  /** The order in which an object built from sorted entries lists its members:
      index keys by their numbers, then the others by their code units. */
  predicate Precedes(a: Text, b: Text) {
    if IndexKey(a) != IndexKey(b) then IndexKey(a)
    else if IndexKey(a) && |a| != |b| then |a| < |b|
    else Less(a, b)
  }

  lemma {:induction false} LessIsOrder(a: Text, b: Text, c: Text)
    ensures !(Less(a, b) && Less(b, a)) && (Less(a, b) || Less(b, a) || a == b)
    ensures Less(a, b) && Less(b, c) ==> Less(a, c)
    decreases |a| + |b| + |c|
  {
    if a != [] && b != [] {
      if c != [] {
        LessIsOrder(a[1..], b[1..], c[1..]);
      } else {
        LessIsOrder(a[1..], b[1..], []);
      }
      assert a == [a[0]] + a[1..] && b == [b[0]] + b[1..];
    }
  }

  lemma PrecedesIsOrder(a: Text, b: Text, c: Text)
    ensures !(Precedes(a, b) && Precedes(b, a)) && (Precedes(a, b) || Precedes(b, a) || a == b)
    ensures Precedes(a, b) && Precedes(b, c) ==> Precedes(a, c)
  {
    LessIsOrder(a, b, c);
  }

  // ---- Sorting ----

  predicate Ordered(members: seq<Member>) {
    forall i, j :: 0 <= i < j < |members| ==> Precedes(members[i].key, members[j].key)
  }

  function InsertMember(members: seq<Member>, m: Member): (r: seq<Member>) {
    if members == [] || Precedes(m.key, members[0].key) then [m] + members
    else [members[0]] + InsertMember(members[1..], m)
  }

  lemma {:induction false} InsertKeeps(members: seq<Member>, m: Member)
    ensures forall x :: x in InsertMember(members, m) <==> x in members || x == m
    ensures Ordered(members) && (forall x :: x in members ==> x.key != m.key) ==> Ordered(InsertMember(members, m))
  {
    if members == [] || Precedes(m.key, members[0].key) {
      if Ordered(members) {
        forall i | 0 <= i < |members|
          ensures Precedes(m.key, members[i].key)
        {
          PrecedesIsOrder(m.key, members[0].key, members[i].key);
        }
      }
    } else {
      InsertKeeps(members[1..], m);
      assert members == [members[0]] + members[1..];
      if Ordered(members) && (forall x :: x in members ==> x.key != m.key) {
        PrecedesIsOrder(m.key, members[0].key, []);
        var r := InsertMember(members[1..], m);
        forall j | 0 <= j < |r|
          ensures Precedes(members[0].key, r[j].key)
        {
          assert r[j] in r;
        }
      }
    }
  }

  lemma FirstIsLeast(r: seq<Member>, s: seq<Member>)
    requires Ordered(r) && Ordered(s) && r != []
    requires forall m :: m in r ==> m in s
    ensures s != [] && (s[0] == r[0] || Precedes(s[0].key, r[0].key))
  {
    assert r[0] in s;
    var j :| 0 <= j < |s| && s[j] == r[0];
  }

  lemma WithoutFirst(r: seq<Member>, m: Member)
    requires Ordered(r) && r != []
    ensures m in r[1..] <==> m in r && m != r[0]
  {
    if m in r[1..] {
      var j :| 0 <= j < |r[1..]| && r[1..][j] == m;
      PrecedesIsOrder(r[0].key, r[j + 1].key, []);
    }
    if m in r && m != r[0] {
      var j :| 0 <= j < |r| && r[j] == m;
      assert r[1..][j - 1] == m;
    }
  }

  lemma HasFirst(s: seq<Member>)
    ensures s == [] || s[0] in s
  {
  }

  /** Ordered lists with the same members are the same list. */
  lemma {:induction false} OrderedIsUnique(r: seq<Member>, s: seq<Member>)
    requires Ordered(r) && Ordered(s) && forall m :: m in r <==> m in s
    ensures r == s
  {
    HasFirst(s);
    if r != [] {
      FirstIsLeast(r, s);
      FirstIsLeast(s, r);
      PrecedesIsOrder(r[0].key, s[0].key, []);
      forall m
        ensures m in r[1..] <==> m in s[1..]
      {
        WithoutFirst(r, m);
        WithoutFirst(s, m);
      }
      OrderedIsUnique(r[1..], s[1..]);
      assert r == [r[0]] + r[1..] && s == [s[0]] + s[1..];
    }
  }

  // ---- The normal form ----

  predicate UniqueKeys(members: seq<Member>) {
    forall i, j :: 0 <= i < j < |members| ==> members[i].key != members[j].key
  }

  /** What a JavaScript value can be: keys are unique, numbers have number texts. */
  predicate Proper(v: Json) {
    match v
    case Number(text) => NumberText(text)
    case Arr(items) => forall i :: 0 <= i < |items| ==> Proper(items[i])
    case Obj(members) =>
      UniqueKeys(members)
      && forall i :: 0 <= i < |members| ==> members[i].value.Some? ==> Proper(members[i].value.value)
    case _ => true
  }

  /** sortJson: undefined members dropped, the others sorted, at every depth. */
  function Normal(v: Json): (r: Json)
    requires Proper(v)
    decreases v, 2, 0
  {
    match v
    case Arr(items) => Arr(seq(|items|, i requires 0 <= i < |items| => Normal(items[i])))
    case Obj(_) => Obj(SortedFrom(v, 0))
    case _ => v
  }

  function NormalMember(v: Json, i: nat): (m: Member)
    requires v.Obj? && Proper(v) && i < |v.members| && v.members[i].value.Some?
    decreases v, 0, 0
  {
    Member(v.members[i].key, Some(Normal(v.members[i].value.value)))
  }

  function SortedFrom(v: Json, i: nat): (members: seq<Member>)
    requires v.Obj? && Proper(v) && i <= |v.members|
    decreases v, 1, |v.members| - i
  {
    if i == |v.members| then []
    else if v.members[i].value.None? then SortedFrom(v, i + 1)
    else InsertMember(SortedFrom(v, i + 1), NormalMember(v, i))
  }

  predicate Present(v: Json, i: int) {
    v.Obj? && 0 <= i < |v.members| && v.members[i].value.Some?
  }

  lemma {:induction false} SortedHolds(v: Json, i: nat)
    requires v.Obj? && Proper(v) && i <= |v.members|
    ensures forall m :: m in SortedFrom(v, i) <==> exists k :: i <= k && Present(v, k) && m == NormalMember(v, k)
    ensures Ordered(SortedFrom(v, i))
    decreases |v.members| - i
  {
    if i < |v.members| {
      SortedHolds(v, i + 1);
      if v.members[i].value.Some? {
        var rest, m := SortedFrom(v, i + 1), NormalMember(v, i);
        InsertKeeps(rest, m);
        assert Present(v, i);
        forall x | x in rest
          ensures x.key != m.key
        {
          var k :| i + 1 <= k && Present(v, k) && x == NormalMember(v, k);
        }
      }
    }
  }

  lemma {:induction false} NormalIsWritable(v: Json)
    requires Proper(v)
    ensures Writable(Normal(v))
    decreases v
  {
    match v
    case Arr(items) =>
      forall i | 0 <= i < |items|
        ensures Writable(Normal(v).items[i])
      {
        NormalIsWritable(items[i]);
      }
    case Obj(members) =>
      SortedHolds(v, 0);
      var r := SortedFrom(v, 0);
      forall j | 0 <= j < |r|
        ensures r[j].value.Some? && Writable(r[j].value.value)
      {
        assert r[j] in r;
        var k :| 0 <= k && Present(v, k) && r[j] == NormalMember(v, k);
        NormalIsWritable(members[k].value.value);
      }
    case _ =>
  }

  // ---- What is signed ----

  function Canonical(v: Json): (text: Text)
    requires Proper(v)
  {
    NormalIsWritable(v);
    Stringify(Normal(v))
  }

  /** The two values differ at most in the order of members and in undefined members. */
  ghost predicate Same(v: Json, w: Json)
    decreases v, 2
  {
    match v
    case Arr(_) => w.Arr? && SameItems(v, w)
    case Obj(_) => w.Obj? && SameMembers(v, w) && KeysReturn(v, w)
    case _ => v == w
  }

  ghost predicate SameItems(v: Json, w: Json)
    requires v.Arr? && w.Arr?
    decreases v, 1
  {
    |v.items| == |w.items| && forall i :: 0 <= i < |v.items| ==> Same(v.items[i], w.items[i])
  }

  /** Every present member of the one has its like in the other. */
  ghost predicate SameMembers(v: Json, w: Json)
    requires v.Obj? && w.Obj?
    decreases v, 1
  {
    forall i :: Present(v, i) ==> exists j :: SameMember(v, i, w, j)
  }

  ghost predicate KeysReturn(v: Json, w: Json)
    requires v.Obj? && w.Obj?
  {
    forall j :: Present(w, j) ==> exists i :: Present(v, i) && v.members[i].key == w.members[j].key
  }

  ghost predicate SameMember(v: Json, i: int, w: Json, j: int)
    requires Present(v, i)
    decreases v, 0
  {
    Present(w, j) && v.members[i].key == w.members[j].key
    && Same(v.members[i].value.value, w.members[j].value.value)
  }

  lemma {:induction false} NormalExactly(v: Json, w: Json)
    requires Proper(v) && Proper(w)
    ensures Normal(v) == Normal(w) <==> Same(v, w)
    decreases v, 3
  {
    if v.Arr? && w.Arr? {
      ArraysExactly(v, w);
    } else if v.Obj? && w.Obj? {
      if Normal(v) == Normal(w) {
        EqualObjectsAreSame(v, w);
      }
      if Same(v, w) {
        SameObjectsAreEqual(v, w);
      }
    }
  }

  lemma {:induction false} ArraysExactly(v: Json, w: Json)
    requires Proper(v) && Proper(w) && v.Arr? && w.Arr?
    ensures Normal(v) == Normal(w) <==> Same(v, w)
    decreases v, 0
  {
    forall i | 0 <= i < |v.items| && i < |w.items|
      ensures Normal(v).items[i] == Normal(w).items[i] <==> Same(v.items[i], w.items[i])
    {
      NormalExactly(v.items[i], w.items[i]);
    }
  }

  lemma {:induction false} EqualObjectsAreSame(v: Json, w: Json)
    requires Proper(v) && Proper(w) && v.Obj? && w.Obj? && Normal(v) == Normal(w)
    ensures Same(v, w)
    decreases v, 0
  {
    assert SortedFrom(v, 0) == SortedFrom(w, 0);
    forall i | Present(v, i)
      ensures exists j :: SameMember(v, i, w, j)
    {
      SortedTakes(v, i);
      var j := SortedGives(w, NormalMember(v, i));
      NormalExactly(v.members[i].value.value, w.members[j].value.value);
      assert SameMember(v, i, w, j);
    }
    forall j | Present(w, j)
      ensures exists i :: Present(v, i) && v.members[i].key == w.members[j].key
    {
      SortedTakes(w, j);
      var i := SortedGives(v, NormalMember(w, j));
    }
  }

  lemma {:induction false} SameMembersAreEqual(v: Json, i: int, w: Json, j: int)
    requires Proper(v) && Proper(w) && Present(v, i) && SameMember(v, i, w, j)
    ensures NormalMember(v, i) == NormalMember(w, j)
    decreases v, 0
  {
    NormalExactly(v.members[i].value.value, w.members[j].value.value);
  }

  /** A sorted list holds the normal form of each present member, and nothing else. */
  lemma SortedGives(v: Json, m: Member) returns (k: int)
    requires v.Obj? && Proper(v) && m in SortedFrom(v, 0)
    ensures Present(v, k) && m == NormalMember(v, k)
  {
    SortedHolds(v, 0);
    k :| 0 <= k && Present(v, k) && m == NormalMember(v, k);
  }

  lemma SortedTakes(v: Json, k: int)
    requires Proper(v) && Present(v, k)
    ensures NormalMember(v, k) in SortedFrom(v, 0)
  {
    SortedHolds(v, 0);
  }

  lemma SameGivesMember(v: Json, i: int, w: Json) returns (j: int)
    requires w.Obj? && Present(v, i) && SameMembers(v, w)
    ensures SameMember(v, i, w, j)
  {
    j :| SameMember(v, i, w, j);
  }

  lemma SameGivesKey(v: Json, w: Json, j: int) returns (i: int)
    requires v.Obj? && Present(w, j) && KeysReturn(v, w)
    ensures Present(v, i) && v.members[i].key == w.members[j].key
  {
    i :| Present(v, i) && v.members[i].key == w.members[j].key;
  }

  lemma {:induction false} MemberComesAlong(v: Json, w: Json, m: Member)
    requires Proper(v) && Proper(w) && v.Obj? && w.Obj? && Same(v, w) && m in SortedFrom(v, 0)
    ensures m in SortedFrom(w, 0)
    decreases v, 1
  {
    var i := SortedGives(v, m);
    var j := SameGivesMember(v, i, w);
    SameMembersAreEqual(v, i, w, j);
    SortedTakes(w, j);
  }

  lemma {:induction false} MemberGoesBack(v: Json, w: Json, m: Member)
    requires Proper(v) && Proper(w) && v.Obj? && w.Obj? && Same(v, w) && m in SortedFrom(w, 0)
    ensures m in SortedFrom(v, 0)
    decreases v, 1
  {
    var j := SortedGives(w, m);
    var i := SameGivesKey(v, w, j);
    var k := SameGivesMember(v, i, w);
    SameMembersAreEqual(v, i, w, j);
    SortedTakes(v, i);
  }

  lemma {:induction false} SameObjectsAreEqual(v: Json, w: Json)
    requires Proper(v) && Proper(w) && v.Obj? && w.Obj? && Same(v, w)
    ensures Normal(v) == Normal(w)
    decreases v, 2
  {
    forall m
      ensures m in SortedFrom(v, 0) <==> m in SortedFrom(w, 0)
    {
      if m in SortedFrom(v, 0) {
        MemberComesAlong(v, w, m);
      }
      if m in SortedFrom(w, 0) {
        MemberGoesBack(v, w, m);
      }
    }
    SortedHolds(v, 0);
    SortedHolds(w, 0);
    OrderedIsUnique(SortedFrom(v, 0), SortedFrom(w, 0));
  }

  /** The signed text is the same exactly when the values are the same up to the
      order of their members, at every depth, and undefined members. */
  lemma CanonicalExactly(v: Json, w: Json)
    requires Proper(v) && Proper(w)
    ensures Canonical(v) == Canonical(w) <==> Same(v, w)
  {
    NormalExactly(v, w);
    NormalIsWritable(v);
    NormalIsWritable(w);
    if Canonical(v) == Canonical(w) {
      StringifyInjective(Normal(v), Normal(w));
    }
  }
}
