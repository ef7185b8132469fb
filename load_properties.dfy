/**
 * `loadProperties`: reads "key=value" entries into a tuple of properties
 * and hands back the entries no property claimed.
 *
 * Every string may hold several entries separated by '|'.  An entry loses
 * all its spaces and must then be two non-empty words around '='.  Each
 * property, in tuple order, takes every remaining entry whose key equals
 * its own key ignoring case and reads the entry's value with
 * `from_string`, so a later entry overrides an earlier one.  What is left
 * is returned as "key=value" strings, in their original order.
 */
module PropertyLoader {
  import opened Errors
  import opened Text
  import opened BaseProperties

  /** One "key=value" entry. */
  datatype Entry = Entry(key: string, value: string)

  /** `getKeyValue`: the key and value of one entry, spaces removed. */
  function KeyValue(item: string): (r: Result<Entry>)
    ensures r.Ok? ==> r.value.key != "" && r.value.value != ""
    ensures r.Ok? ==> '=' !in r.value.key && '=' !in r.value.value
    ensures r.Ok? ==> ' ' !in r.value.key && ' ' !in r.value.value
    ensures r.Throw? ==> r.ex == InvalidArgument(BadValue)
  {
    var words := Words(RemoveSpaces(item), '=');
    if |words| == 2 then
      assert words[0] in words && words[1] in words;
      assert forall w :: w in Split(RemoveSpaces(item), '=') ==> ' ' !in w by {
        SplitKeepsCharsOut(RemoveSpaces(item), '=', ' ');
      }
      Ok(Entry(words[0], words[1]))
    else Throw(InvalidArgument(BadValue))
  }

  /** A character absent from `s` is absent from every piece of `Split(s, sep)`. */
  lemma {:induction false} SplitKeepsCharsOut(s: string, sep: char, c: char)
    requires c !in s
    ensures forall w :: w in Split(s, sep) ==> c !in w
    decreases |s|
  {
    if sep in s {
      var i := IndexOf(s, sep);
      var rest := s[i + 1..];
      assert forall k :: 0 <= k < |rest| ==> rest[k] == s[i + 1 + k];
      SplitKeepsCharsOut(rest, sep, c);
    }
  }

  /** The text an entry is returned as. */
  function RenderEntry(e: Entry): string
  {
    e.key + "=" + e.value
  }

  /** An entry of non-empty words free of '=' and spaces reads back from its text. */
  lemma KeyValueOfRender(e: Entry)
    requires e.key != "" && e.value != ""
    requires '=' !in e.key && '=' !in e.value
    requires ' ' !in e.key && ' ' !in e.value
    ensures KeyValue(RenderEntry(e)) == Ok(e)
  {
    var s := RenderEntry(e);
    assert ' ' !in s by {
      assert forall k :: 0 <= k < |s| ==> s[k] == (if k < |e.key| then e.key[k] else if k == |e.key| then '=' else e.value[k - |e.key| - 1]);
    }
    RemoveSpacesOfSpaceFree(s);
    assert Join([e.key, e.value], '=') == s;
    SplitOfJoin([e.key, e.value], '=');
    assert NonEmpty([e.key, e.value]) == [e.key, e.value] by {
      assert [e.key, e.value][1..] == [e.value];
    }
  }

  /** Every string split on '|', pieces in order. */
  function Pieces(items: seq<string>): (r: seq<string>)
    ensures forall p :: p in r ==> '|' !in p
  {
    if |items| == 0 then [] else Split(items[0], '|') + Pieces(items[1..])
  }

  /** Every piece read as an entry; fails when any piece is not one. */
  function Entries(pieces: seq<string>): (r: Result<seq<Entry>>)
    ensures r.Ok? <==> forall i :: 0 <= i < |pieces| ==> KeyValue(pieces[i]).Ok?
    ensures r.Ok? ==> |r.value| == |pieces|
    ensures r.Ok? ==> forall i :: 0 <= i < |pieces| ==> KeyValue(pieces[i]) == Ok(r.value[i])
    ensures r.Throw? ==> r.ex == InvalidArgument(BadValue)
  {
    if forall i :: 0 <= i < |pieces| ==> KeyValue(pieces[i]).Ok? then
      Ok(seq(|pieces|, i requires 0 <= i < |pieces| => KeyValue(pieces[i]).value))
    else Throw(InvalidArgument(BadValue))
  }

  /** The entries of all strings handed to `loadProperties`. */
  function LoadEntries(items: seq<string>): Result<seq<Entry>>
  {
    Entries(Pieces(items))
  }

  /** Property kind `k` takes entry `e`. */
  predicate Claims(k: Kind, e: Entry)
  {
    EqualsIgnoreCase(Key(k), e.key)
  }

  /** The entries of `es` that kind `k` takes, in order. */
  function Claimed(es: seq<Entry>, k: Kind): seq<Entry>
  {
    if |es| == 0 then []
    else
      var last := es[|es| - 1];
      Claimed(es[..|es| - 1], k) + (if Claims(k, last) then [last] else [])
  }

  /** Kind `k` takes exactly the entries of `es` whose key is its own. */
  lemma {:induction false} ClaimedMembers(es: seq<Entry>, k: Kind, e: Entry)
    ensures e in Claimed(es, k) <==> e in es && Claims(k, e)
    decreases |es|
  {
    if |es| > 0 {
      var front := es[..|es| - 1];
      var last := es[|es| - 1];
      var tail := if Claims(k, last) then [last] else [];
      assert Claimed(es, k) == Claimed(front, k) + tail;
      assert es == front + [last];
      assert e in es <==> e in front || e == last;
      assert e in Claimed(es, k) <==> e in Claimed(front, k) || e in tail;
      ClaimedMembers(front, k, e);
    }
  }

  /** The entries of `es` that kind `k` leaves, in order. */
  function Unclaimed(es: seq<Entry>, k: Kind): seq<Entry>
  {
    if |es| == 0 then []
    else
      var last := es[|es| - 1];
      Unclaimed(es[..|es| - 1], k) + (if Claims(k, last) then [] else [last])
  }

  /** The entries left after the properties of kinds `kinds` took theirs, in turn. */
  function LeftAfter(es: seq<Entry>, kinds: seq<Kind>): seq<Entry>
  {
    if |kinds| == 0 then es
    else Unclaimed(LeftAfter(es, kinds[..|kinds| - 1]), kinds[|kinds| - 1])
  }

  /** Some kind in `kinds` takes entry `e`. */
  predicate Owned(e: Entry, kinds: seq<Kind>)
  {
    exists k :: k in kinds && Claims(k, e)
  }

  /** The entries of `es` that no kind in `kinds` takes, in order. */
  function Unowned(es: seq<Entry>, kinds: seq<Kind>): seq<Entry>
  {
    if |es| == 0 then []
    else
      var last := es[|es| - 1];
      Unowned(es[..|es| - 1], kinds) + (if Owned(last, kinds) then [] else [last])
  }

  /** Dropping what one more kind takes from the unowned entries. */
  lemma {:induction false} UnclaimedOfUnowned(es: seq<Entry>, kinds: seq<Kind>, k: Kind)
    ensures Unclaimed(Unowned(es, kinds), k) == Unowned(es, kinds + [k])
    decreases |es|
  {
    if |es| > 0 {
      var front := es[..|es| - 1];
      var last := es[|es| - 1];
      var u := Unowned(front, kinds);
      UnclaimedOfUnowned(front, kinds, k);
      if Owned(last, kinds) {
        var j :| j in kinds && Claims(j, last);
        assert j in kinds + [k];
        assert Unowned(es, kinds) == u;
      } else {
        assert Unowned(es, kinds) == u + [last];
        assert (u + [last])[..|u|] == u;
        if Claims(k, last) {
          assert k in kinds + [k];
        } else {
          assert !Owned(last, kinds + [k]);
        }
      }
    }
  }

  /** Nobody owns anything when there are no kinds. */
  lemma {:induction false} UnownedOfNoKinds(es: seq<Entry>)
    ensures Unowned(es, []) == es
    decreases |es|
  {
    if |es| > 0 {
      var last := es[|es| - 1];
      UnownedOfNoKinds(es[..|es| - 1]);
      assert !Owned(last, []);
      assert es == es[..|es| - 1] + [last];
    }
  }

  /**
   * The entries `loadProperties` returns are exactly those whose key no
   * property of the tuple has, in their original order.
   */
  lemma {:induction false} LeftAfterIsUnowned(es: seq<Entry>, kinds: seq<Kind>)
    ensures LeftAfter(es, kinds) == Unowned(es, kinds)
    decreases |kinds|
  {
    if |kinds| == 0 {
      UnownedOfNoKinds(es);
    } else {
      var front := kinds[..|kinds| - 1];
      LeftAfterIsUnowned(es, front);
      UnclaimedOfUnowned(es, front, kinds[|kinds| - 1]);
      assert front + [kinds[|kinds| - 1]] == kinds;
    }
  }

  /** The entries the property at position `i` of a tuple of kinds `kinds` reads. */
  function Received(es: seq<Entry>, kinds: seq<Kind>, i: nat): seq<Entry>
    requires i < |kinds|
  {
    Claimed(LeftAfter(es, kinds[..i]), kinds[i])
  }

  /**
   * The contents of a property of kind `k` and shape `shape` that held
   * `stored` and then read the values of `received` one after the other.
   * It fails as soon as one value is rejected; otherwise the last value
   * read wins.
   */
  function Loaded(k: Kind, shape: Shape, stored: seq<Option<Value>>, received: seq<Entry>)
    : (r: Result<seq<Option<Value>>>)
    ensures r.Ok? && |received| == 0 ==> r.value == stored
    ensures r.Ok? && |received| > 0 ==>
              ConvertProperty(k, shape, received[|received| - 1].value).Ok? &&
              r.value == Given(ConvertProperty(k, shape, received[|received| - 1].value).value)
  {
    if |received| == 0 then Ok(stored)
    else
      var last := received[|received| - 1];
      match Loaded(k, shape, stored, received[..|received| - 1])
      case Throw(x) => Throw(x)
      case Ok(_) =>
        match ConvertProperty(k, shape, last.value)
        case Throw(x) => Throw(x)
        case Ok(vs) => Ok(Given(vs))
  }

  /**
   * What a property of kind `k` and shape `shape` that held `stored` holds
   * after reading the values of `received` in order, stopping at the first
   * value it rejects: the last value accepted before that one, or `stored`.
   */
  function Held(k: Kind, shape: Shape, stored: seq<Option<Value>>, received: seq<Entry>): (v: seq<Option<Value>>)
    ensures Loaded(k, shape, stored, received).Ok? ==> v == Loaded(k, shape, stored, received).value
  {
    if |received| == 0 then stored
    else
      var front := received[..|received| - 1];
      var before := Held(k, shape, stored, front);
      if Loaded(k, shape, stored, front).Throw? then before
      else
        match ConvertProperty(k, shape, received[|received| - 1].value)
        case Throw(_) => before
        case Ok(vs) => Given(vs)
  }

  /** Once a value is rejected, later entries change neither the failure nor what the property holds. */
  lemma {:induction false} LoadedAfterThrow(k: Kind, shape: Shape, stored: seq<Option<Value>>, a: seq<Entry>, b: seq<Entry>)
    requires Loaded(k, shape, stored, a).Throw?
    ensures Loaded(k, shape, stored, a + b) == Loaded(k, shape, stored, a)
    ensures Held(k, shape, stored, a + b) == Held(k, shape, stored, a)
    decreases |b|
  {
    if |b| > 0 {
      var front := b[..|b| - 1];
      assert (a + b)[..|a + b| - 1] == a + front;
      LoadedAfterThrow(k, shape, stored, a, front);
    } else {
      assert a + b == a;
    }
  }

  /** Reading a list of entries succeeds exactly when the property accepts every value. */
  lemma {:induction false} LoadedOkIff(k: Kind, shape: Shape, stored: seq<Option<Value>>, received: seq<Entry>)
    ensures Loaded(k, shape, stored, received).Ok? <==>
              forall e :: e in received ==> ConvertProperty(k, shape, e.value).Ok?
    decreases |received|
  {
    if |received| > 0 {
      var front := received[..|received| - 1];
      var last := received[|received| - 1];
      assert received == front + [last];
      LoadedOkIff(k, shape, stored, front);
    }
  }

  /** The kinds of a tuple of properties. */
  function KindsOf(props: seq<Property>): (r: seq<Kind>)
    ensures |r| == |props|
    ensures forall i :: 0 <= i < |props| ==> r[i] == props[i].kind
  {
    seq(|props|, i requires 0 <= i < |props| => props[i].kind)
  }

  /**
   * A property of kind `k` and shape `shape` that held `stored` has read
   * the entries it takes among the first `t` of `left`, holds `values`
   * and has left behind `rest`.
   */
  ghost predicate ReadPrefix(k: Kind, shape: Shape, stored: seq<Option<Value>>, left: seq<Entry>,
                             t: nat, rest: seq<Entry>, values: seq<Option<Value>>)
  {
    t <= |left| &&
    rest == Unclaimed(left[..t], k) &&
    Loaded(k, shape, stored, Claimed(left[..t], k)) == Ok(values)
  }

  /** Reading one more entry that the property takes and accepts. */
  lemma ReadClaimed(k: Kind, shape: Shape, stored: seq<Option<Value>>, left: seq<Entry>,
                    t: nat, rest: seq<Entry>, values: seq<Option<Value>>)
    requires ReadPrefix(k, shape, stored, left, t, rest, values) && t < |left|
    requires Claims(k, left[t]) && ConvertProperty(k, shape, left[t].value).Ok?
    ensures ReadPrefix(k, shape, stored, left, t + 1, rest,
                       Given(ConvertProperty(k, shape, left[t].value).value))
  {
    PrefixStep(left, t, k);
    assert rest + [] == rest;
    LoadedSnoc(k, shape, stored, Claimed(left[..t], k), left[t]);
  }

  /** An accepted entry read after an accepted list replaces what the list gave. */
  lemma LoadedSnoc(k: Kind, shape: Shape, stored: seq<Option<Value>>, a: seq<Entry>, e: Entry)
    requires Loaded(k, shape, stored, a).Ok? && ConvertProperty(k, shape, e.value).Ok?
    ensures Loaded(k, shape, stored, a + [e]) == Ok(Given(ConvertProperty(k, shape, e.value).value))
  {
    assert (a + [e])[..|a|] == a;
  }

  /** Passing over one more entry that the property does not take. */
  lemma ReadUnclaimed(k: Kind, shape: Shape, stored: seq<Option<Value>>, left: seq<Entry>,
                      t: nat, rest: seq<Entry>, values: seq<Option<Value>>)
    requires ReadPrefix(k, shape, stored, left, t, rest, values) && t < |left|
    requires !Claims(k, left[t])
    ensures ReadPrefix(k, shape, stored, left, t + 1, rest + [left[t]], values)
  {
    PrefixStep(left, t, k);
    assert Claimed(left[..t], k) + [] == Claimed(left[..t], k);
  }

  /** Taking one more entry of `left` into the prefix extends one of the two parts. */
  lemma PrefixStep(left: seq<Entry>, t: nat, k: Kind)
    requires t < |left|
    ensures Claimed(left[..t + 1], k) == Claimed(left[..t], k) + (if Claims(k, left[t]) then [left[t]] else [])
    ensures Unclaimed(left[..t + 1], k) == Unclaimed(left[..t], k) + (if Claims(k, left[t]) then [] else [left[t]])
  {
    assert left[..t + 1][..t] == left[..t];
  }

  /**
   * The first entry the property takes and rejects makes the whole read
   * fail with that entry's exception, and the property keeps what it had
   * read before it.
   */
  lemma ReadRejected(k: Kind, shape: Shape, stored: seq<Option<Value>>, left: seq<Entry>,
                     t: nat, rest: seq<Entry>, values: seq<Option<Value>>)
    requires ReadPrefix(k, shape, stored, left, t, rest, values) && t < |left|
    requires Claims(k, left[t]) && ConvertProperty(k, shape, left[t].value).Throw?
    ensures Loaded(k, shape, stored, Claimed(left, k)) == Throw(ConvertProperty(k, shape, left[t].value).ex)
    ensures Held(k, shape, stored, Claimed(left, k)) == values
  {
    ClaimedAround(left, t, k);
    RejectedLast(k, shape, stored, Claimed(left[..t], k), left[t], values);
    LoadedAfterThrow(k, shape, stored, Claimed(left[..t], k) + [left[t]], Claimed(left[t + 1..], k));
  }

  /** The entries a kind takes from `left` around a position `t` it takes. */
  lemma ClaimedAround(left: seq<Entry>, t: nat, k: Kind)
    requires t < |left| && Claims(k, left[t])
    ensures Claimed(left, k) == Claimed(left[..t], k) + [left[t]] + Claimed(left[t + 1..], k)
  {
    PrefixStep(left, t, k);
    ClaimedAppend(left[..t + 1], left[t + 1..], k);
    assert left[..t + 1] + left[t + 1..] == left;
  }

  /** A rejected value read after an accepted list fails with its exception, and the list's value is kept. */
  lemma RejectedLast(k: Kind, shape: Shape, stored: seq<Option<Value>>, a: seq<Entry>, e: Entry, values: seq<Option<Value>>)
    requires Loaded(k, shape, stored, a) == Ok(values) && ConvertProperty(k, shape, e.value).Throw?
    ensures Loaded(k, shape, stored, a + [e]) == Throw(ConvertProperty(k, shape, e.value).ex)
    ensures Held(k, shape, stored, a + [e]) == values
  {
    assert (a + [e])[..|a|] == a;
  }

  /** The entries a kind takes from two stretches of entries are those it takes from each. */
  lemma {:induction false} ClaimedAppend(x: seq<Entry>, y: seq<Entry>, k: Kind)
    ensures Claimed(x + y, k) == Claimed(x, k) + Claimed(y, k)
    decreases |y|
  {
    if |y| > 0 {
      var front := y[..|y| - 1];
      assert (x + y)[..|x + y| - 1] == x + front;
      ClaimedAppend(x, front, k);
    } else {
      assert x + y == x;
    }
  }

  /**
   * One property takes its entries from `left` and reads them in order;
   * `rest` is what it leaves.
   */
  method LoadInto(p: Property, left: seq<Entry>) returns (rest: seq<Entry>, o: Outcome)
    requires p.Valid()
    modifies p
    ensures p.Valid()
    ensures o.Pass? <==> Loaded(p.kind, p.shape, old(p.values), Claimed(left, p.kind)).Ok?
    ensures o.Pass? ==> p.values == Loaded(p.kind, p.shape, old(p.values), Claimed(left, p.kind)).value
    ensures o.Pass? ==> rest == Unclaimed(left, p.kind)
    ensures o.Fail? ==> Loaded(p.kind, p.shape, old(p.values), Claimed(left, p.kind)) == Throw(o.ex)
    ensures o.Fail? ==> Rejection(o.ex)
    ensures p.values == Held(p.kind, p.shape, old(p.values), Claimed(left, p.kind))
  {
    ghost var stored := p.values;
    rest := [];
    var t := 0;
    while t < |left|
      invariant p.Valid()
      invariant ReadPrefix(p.kind, p.shape, stored, left, t, rest, p.values)
    {
      var e := left[t];
      if Claims(p.kind, e) {
        ghost var before := p.values;
        var r := p.FromString(e.value);
        if r.Fail? {
          ReadRejected(p.kind, p.shape, stored, left, t, rest, p.values);
          return rest, r;
        }
        ReadClaimed(p.kind, p.shape, stored, left, t, rest, before);
      } else {
        ReadUnclaimed(p.kind, p.shape, stored, left, t, rest, p.values);
        rest := rest + [e];
      }
      t := t + 1;
    }
    assert left[..t] == left;
    o := Pass;
  }

  /** What each property of the tuple holds. */
  function Values(props: seq<Property>): (v: seq<seq<Option<Value>>>)
    reads set j | 0 <= j < |props| :: props[j]
    ensures |v| == |props|
    ensures forall j :: 0 <= j < |props| ==> v[j] == props[j].values
  {
    if |props| == 0 then []
    else
      assert forall j :: 0 <= j < |props| - 1 ==> props[1..][j] == props[j + 1];
      [props[0].values] + Values(props[1..])
  }

  /** The texts entries are returned as, in order. */
  function RenderAll(es: seq<Entry>): (r: seq<string>)
    ensures |r| == |es|
    ensures forall i :: 0 <= i < |es| ==> r[i] == RenderEntry(es[i])
  {
    if |es| == 0 then [] else [RenderEntry(es[0])] + RenderAll(es[1..])
  }

  /**
   * `loadProperties(items, props)`.  Fails before touching any property
   * when a piece is not a "key=value" entry.  Otherwise every property
   * reads, in tuple order, the entries it takes; it fails on the first
   * value a property rejects (the properties before it keep what they
   * read).  On success every property holds the last value given for its
   * key and the entries no property has are returned.
   */
  method LoadProperties(items: seq<string>, props: seq<Property>) returns (r: Result<seq<string>>)
    requires forall i :: 0 <= i < |props| ==> props[i].Valid()
    requires forall i, j :: 0 <= i < j < |props| ==> props[i] != props[j]
    modifies set i | 0 <= i < |props| :: props[i]
    ensures forall i :: 0 <= i < |props| ==> props[i].Valid()
    ensures LoadEntries(items).Throw? ==>
              r == Throw(LoadEntries(items).ex) &&
              forall i :: 0 <= i < |props| ==> props[i].values == old(props[i].values)
    ensures r.Ok? <==>
              LoadEntries(items).Ok? &&
              forall i :: 0 <= i < |props| ==>
                Loaded(props[i].kind, props[i].shape, old(props[i].values),
                       Received(LoadEntries(items).value, KindsOf(props), i)).Ok?
    ensures r.Ok? ==>
              forall i :: 0 <= i < |props| ==>
                props[i].values ==
                  Loaded(props[i].kind, props[i].shape, old(props[i].values),
                         Received(LoadEntries(items).value, KindsOf(props), i)).value
    ensures r.Ok? ==> r.value == RenderAll(Unowned(LoadEntries(items).value, KindsOf(props)))
    ensures r.Throw? ==> Rejection(r.ex)
    ensures r.Throw? && LoadEntries(items).Ok? ==>
              exists n :: FailedAt(LoadEntries(items).value, props, old(Values(props)), n, r.ex)
  {
    var entries :- LoadEntries(items);
    ghost var olds := Values(props);
    var left := entries;
    for i := 0 to |props|
      invariant LoadedUpTo(entries, props, olds, i)
      invariant left == LeftAfter(entries, KindsOf(props)[..i])
      invariant forall j :: 0 <= j < |props| ==> olds[j] == old(props[j].values)
    {
      var rest, o := LoadStep(entries, props, olds, i, left);
      if o.Fail? {
        assert FailedAt(entries, props, olds, i, o.ex);
        return Throw(o.ex);
      }
      left := rest;
    }
    assert KindsOf(props)[..|props|] == KindsOf(props);
    LeftAfterIsUnowned(entries, KindsOf(props));
    r := Ok(RenderAll(left));
  }

  /**
   * The first `n` properties of the tuple have read the entries they take
   * and the others still hold what they held (`olds`).
   */
  ghost predicate LoadedUpTo(entries: seq<Entry>, props: seq<Property>,
                             olds: seq<seq<Option<Value>>>, n: nat)
    reads set j | 0 <= j < |props| :: props[j]
  {
    |olds| == |props| && n <= |props| &&
    (forall j :: 0 <= j < |props| ==> props[j].Valid()) &&
    (forall j :: 0 <= j < n ==>
       Loaded(props[j].kind, props[j].shape, olds[j], Received(entries, KindsOf(props), j))
         == Ok(props[j].values)) &&
    (forall j :: n <= j < |props| ==> props[j].values == olds[j])
  }

  /**
   * Loading stopped at the property at position `n`, which rejected a
   * value with `ex`: the properties before it have read all their
   * entries, it holds what it read before the rejected value, and the
   * ones after it still hold what they held (`olds`).
   */
  ghost predicate FailedAt(entries: seq<Entry>, props: seq<Property>,
                           olds: seq<seq<Option<Value>>>, n: nat, ex: Exception)
    reads set j | 0 <= j < |props| :: props[j]
  {
    |olds| == |props| && n < |props| &&
    (forall j :: 0 <= j < n ==>
       Loaded(props[j].kind, props[j].shape, olds[j], Received(entries, KindsOf(props), j))
         == Ok(props[j].values)) &&
    Loaded(props[n].kind, props[n].shape, olds[n], Received(entries, KindsOf(props), n)) == Throw(ex) &&
    props[n].values == Held(props[n].kind, props[n].shape, olds[n], Received(entries, KindsOf(props), n)) &&
    (forall j :: n < j < |props| ==> props[j].values == olds[j])
  }

  /** The property at position `i` reads the entries it takes from `left`. */
  method LoadStep(entries: seq<Entry>, props: seq<Property>, ghost olds: seq<seq<Option<Value>>>,
                  i: nat, left: seq<Entry>)
    returns (rest: seq<Entry>, o: Outcome)
    requires i < |props|
    requires forall a, b :: 0 <= a < b < |props| ==> props[a] != props[b]
    requires LoadedUpTo(entries, props, olds, i)
    requires left == LeftAfter(entries, KindsOf(props)[..i])
    modifies props[i]
    ensures forall j :: 0 <= j < |props| ==> props[j].Valid()
    ensures o.Pass? ==> LoadedUpTo(entries, props, olds, i + 1)
    ensures o.Pass? ==> rest == LeftAfter(entries, KindsOf(props)[..i + 1])
    ensures o.Fail? ==> Rejection(o.ex)
    ensures o.Fail? ==> FailedAt(entries, props, olds, i, o.ex)
  {
    var p := props[i];
    ghost var before := Values(props);
    assert Received(entries, KindsOf(props), i) == Claimed(left, p.kind);
    rest, o := LoadInto(p, left);
    assert forall j :: 0 <= j < |props| && j != i ==> props[j].values == before[j];
    if o.Pass? {
      assert KindsOf(props)[..i + 1][..i] == KindsOf(props)[..i];
      StepPassed(entries, props, olds, before, i);
    } else {
      StepFailed(entries, props, olds, before, i, o.ex);
    }
  }

  /** The facts `LoadedUpTo` collects, about the values before and after one property's successful load. */
  lemma StepPassed(entries: seq<Entry>, props: seq<Property>, olds: seq<seq<Option<Value>>>,
                   before: seq<seq<Option<Value>>>, i: nat)
    requires i < |props| && |olds| == |props| == |before|
    requires forall j :: 0 <= j < |props| ==> props[j].Valid()
    requires forall j :: 0 <= j < i ==>
               Loaded(props[j].kind, props[j].shape, olds[j], Received(entries, KindsOf(props), j)) == Ok(before[j])
    requires forall j :: i < j < |props| ==> before[j] == olds[j]
    requires forall j :: 0 <= j < |props| && j != i ==> props[j].values == before[j]
    requires Loaded(props[i].kind, props[i].shape, olds[i], Received(entries, KindsOf(props), i)) == Ok(props[i].values)
    ensures LoadedUpTo(entries, props, olds, i + 1)
  {
  }

  /** The facts `FailedAt` collects, about the values before and after one property's failed load. */
  lemma StepFailed(entries: seq<Entry>, props: seq<Property>, olds: seq<seq<Option<Value>>>,
                   before: seq<seq<Option<Value>>>, i: nat, ex: Exception)
    requires i < |props| && |olds| == |props| == |before|
    requires forall j :: 0 <= j < i ==>
               Loaded(props[j].kind, props[j].shape, olds[j], Received(entries, KindsOf(props), j)) == Ok(before[j])
    requires forall j :: i < j < |props| ==> before[j] == olds[j]
    requires forall j :: 0 <= j < |props| && j != i ==> props[j].values == before[j]
    requires Loaded(props[i].kind, props[i].shape, olds[i], Received(entries, KindsOf(props), i)) == Throw(ex)
    requires props[i].values == Held(props[i].kind, props[i].shape, olds[i], Received(entries, KindsOf(props), i))
    ensures FailedAt(entries, props, olds, i, ex)
  {
  }
}
