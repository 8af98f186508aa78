/** Walking down mappings by the text of their keys. */
module Walking {
  import opened Values
  import opened Merge
  import opened RequiredConfig
  import opened References

  /** The digits of a number spell it, the first of them not being a needless zero. */
  lemma {:induction false} DecimalIsDigits(n: nat)
    ensures IsDigits(Decimal(n)) && DigitsValue(Decimal(n)) == n
    ensures n > 0 ==> Decimal(n)[0] != '0'
  {
    if n >= 10 {
      DecimalIsDigits(n / 10);
      var front, last := Decimal(n / 10), '0' + (n % 10) as char;
      assert Decimal(n) == front + [last];
      assert Decimal(n)[..|Decimal(n)| - 1] == front;
    }
  }

  /** The key is the one its text selects in a walk: a name always is, a number unless it is
  negative or a name spells it. */
  predicate Reachable(es: Entries, key: Key)
  {
    key.Number? ==> key.number >= 0 && Lookup(es, Name(Decimal(key.number))).None?
  }

  lemma TextSelectsKey(es: Entries, key: Key)
    requires Lookup(es, key).Some?
    ensures SegmentKey(es, KeyText(key)) == Some(key) <==> Reachable(es, key)
  {
    if key.Number? && key.number >= 0 {
      DecimalIsDigits(key.number);
    }
    if key.Number? && key.number < 0 {
      assert Decimal(key.number)[0] == '-';
    }
  }

  predicate AllReachable(x: Value, q: seq<Key>)
    requires Find(x, q).Bound?
    decreases |q|
  {
    q != [] ==> Reachable(x.entries, q[0]) && AllReachable(Lookup(x.entries, q[0]).value, q[1..])
  }

  /** Walking down mappings finds what is bound at the path, each key given by its text. */
  lemma {:induction false} WalkFindsBound(x: Value, q: seq<Key>, attr: Attributes)
    requires Find(x, q).Bound? && AllReachable(x, q)
    ensures Walk(x, Texts(q), attr) == Ok(Find(x, q).value)
    decreases |q|
  {
    if q != [] {
      TextSelectsKey(x.entries, q[0]);
      assert Texts(q)[1..] == Texts(q[1..]);
      WalkFindsBound(Lookup(x.entries, q[0]).value, q[1..], attr);
    }
  }
}
