/**
 * The values the Badge Tracker page works on: spreadsheet rows, member
 * records, the form draft, and the segment collection (a JavaScript object
 * from segment name to member list, whose key order is insertion order).
 */
module Records {

  datatype Option<T> = None | Some(value: T)

  /** One row of the sheet range A2:E: name, badge, date, segment and a reserved column. */
  datatype Row = Row(name: string, badge: string, date: string, segment: string, reserved: string)

  /** A member record as shown on a card. */
  datatype Member = Member(name: string, badge: string, date: string)

  /** The add-member form's unsaved input. */
  datatype Draft = Draft(name: string, badge: string)

  /**
   * The segment collection. `order` is the object's key order (what
   * `Object.keys` yields, and so the tab order); `buckets` holds each
   * segment's member list.
   */
  datatype Collection = Collection(order: seq<string>, buckets: map<string, seq<Member>>)

  /** The object literal `{}`. */
  const Empty: Collection := Collection([], map[])

  /** The `{ name, badge, date }` record built from a row; the segment and reserved columns are dropped. */
  function MemberOf(r: Row): Member {
    Member(r.name, r.badge, r.date)
  }

  /** The list under `s`, or the empty list when `s` is not a key (`data[s] || []`). */
  function Get(c: Collection, s: string): seq<Member> {
    if s in c.buckets then c.buckets[s] else []
  }

  predicate Distinct(keys: seq<string>) {
    forall i, j :: 0 <= i < j < |keys| ==> keys[i] != keys[j]
  }

  /**
   * What every collection the page builds satisfies: the key order lists
   * each key once, it lists exactly the keys, and no list is empty (a key
   * is only ever created together with its first member).
   */
  ghost predicate Valid(c: Collection) {
    && Distinct(c.order)
    && (forall s :: s in c.buckets <==> s in c.order)
    && (forall s :: s in c.buckets ==> c.buckets[s] != [])
  }

  /**
   * Appends `m` to the list under `s`, creating that list (as the last key)
   * when `s` is not yet a key. This is both the loader's
   * create-if-absent-then-push and the appender's spread
   * `{ ...data, [s]: [...(data[s] || []), m] }`, which keeps an existing
   * key in place and puts a new one last.
   */
  function Push(c: Collection, s: string, m: Member): (r: Collection)
    ensures Get(r, s) == Get(c, s) + [m]
    ensures forall t :: t != s ==> Get(r, t) == Get(c, t)
    ensures r.buckets.Keys == c.buckets.Keys + {s}
    ensures s in c.buckets ==> r.order == c.order
    ensures s !in c.buckets ==> r.order == c.order + [s]
    ensures Valid(c) ==> Valid(r)
  {
    if s in c.buckets then Collection(c.order, c.buckets[s := c.buckets[s] + [m]])
    else Collection(c.order + [s], c.buckets[s := [m]])
  }

  /** The lists of the keys in `keys`, concatenated in that order. */
  function Concat(keys: seq<string>, c: Collection): seq<Member>
    decreases |keys|
  {
    if keys == [] then [] else Concat(keys[..|keys| - 1], c) + Get(c, keys[|keys| - 1])
  }

  /** Every member of the collection, segment by segment in tab order. */
  function Flatten(c: Collection): seq<Member> {
    Concat(c.order, c)
  }

  /** Concatenating keys whose lists agree in two collections gives the same sequence. */
  lemma {:induction false} ConcatAgrees(keys: seq<string>, c: Collection, d: Collection)
    requires forall k :: k in keys ==> Get(c, k) == Get(d, k)
    ensures Concat(keys, c) == Concat(keys, d)
    decreases |keys|
  {
    if keys != [] {
      ConcatAgrees(keys[..|keys| - 1], c, d);
    }
  }

  /**
   * Over a duplicate-free key list holding `s`, growing `s`'s list by one
   * member `m` and changing no other list grows the concatenation by
   * exactly `m`.
   */
  lemma {:induction false} ConcatGrows(keys: seq<string>, c: Collection, d: Collection, s: string, m: Member)
    requires Distinct(keys) && s in keys
    requires Get(d, s) == Get(c, s) + [m]
    requires forall t :: t != s ==> Get(d, t) == Get(c, t)
    ensures multiset(Concat(keys, d)) == multiset(Concat(keys, c)) + multiset{m}
    decreases |keys|
  {
    var front, last := keys[..|keys| - 1], keys[|keys| - 1];
    if last == s {
      assert s !in front;
      ConcatAgrees(front, c, d);
    } else {
      assert s in front by {
        var i :| 0 <= i < |keys| && keys[i] == s;
        assert i < |keys| - 1;
        assert front[i] == s;
      }
      ConcatGrows(front, c, d, s, m);
    }
  }

  /** Pushing one member adds exactly that member to the collection and loses none. */
  lemma PushAddsOne(c: Collection, s: string, m: Member)
    requires Valid(c)
    ensures multiset(Flatten(Push(c, s, m))) == multiset(Flatten(c)) + multiset{m}
    ensures |Flatten(Push(c, s, m))| == |Flatten(c)| + 1
  {
    var d := Push(c, s, m);
    if s in c.buckets {
      ConcatGrows(c.order, c, d, s, m);
    } else {
      assert d.order[..|d.order| - 1] == c.order;
      ConcatAgrees(c.order, c, d);
    }
    calc {
      |Flatten(d)|;
      |multiset(Flatten(d))|;
      |multiset(Flatten(c))| + 1;
      |Flatten(c)| + 1;
    }
  }
}
