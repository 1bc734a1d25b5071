/** The workshop table: one record per workshop, the keys the analyses group
    by, and the order in which grouped keys come out (ascending, as pandas
    sorts group keys). */
module Table {

  datatype Option<T> = None | Some(value: T)

  /** Why an analysis raised instead of producing its table. */
  datatype Failure = NullTags

  datatype Result<T> = Ok(value: T) | Err(failure: Failure)

  /** One row of the input table. Nullable columns are Options; `host` is
      the `organiser_top_level_web_domain` column. */
  datatype Workshop = Workshop(
    year: int,
    workshopType: string,
    host: Option<string>,
    tags: Option<string>,
    slug: Option<string>,
    region: Option<string>,
    attendance: Option<int>)

  /** The fixed per-workshop attendance estimate. */
  const EstimatedAttendeesPerWorkshop: nat := 20

  /** A group key: a year, a text value (type, host, region), or the key of
      a group-by on two columns. */
  datatype Key = Year(year: int) | Name(name: string) | Pair(fst: Key, snd: Key)

  /** Python's string order: lexicographic by code point. */
  predicate TextLt(a: string, b: string)
  {
    |b| > 0 && (|a| == 0 || a[0] < b[0] || (a[0] == b[0] && TextLt(a[1..], b[1..])))
  }

  /** The order of group keys: numbers by value, text by TextLt, pairs
      lexicographically. Keys of different kinds never meet in one column;
      they are ordered Year < Name < Pair only to make the order total. */
  predicate KeyLt(a: Key, b: Key)
  {
    match a
    case Year(x) => !b.Year? || x < b.year
    case Name(s) => (b.Name? && TextLt(s, b.name)) || b.Pair?
    case Pair(p, q) => b.Pair? && (KeyLt(p, b.fst) || (p == b.fst && KeyLt(q, b.snd)))
  }

  lemma {:induction false} TextLtIrreflexive(a: string)
    ensures !TextLt(a, a)
  {
    if |a| > 0 {
      TextLtIrreflexive(a[1..]);
    }
  }

  lemma {:induction false} TextLtTransitive(a: string, b: string, c: string)
    requires TextLt(a, b) && TextLt(b, c)
    ensures TextLt(a, c)
  {
    if |a| > 0 && a[0] == b[0] && b[0] == c[0] {
      TextLtTransitive(a[1..], b[1..], c[1..]);
    }
  }

  lemma {:induction false} TextLtTotal(a: string, b: string)
    ensures a == b || TextLt(a, b) || TextLt(b, a)
  {
    if |a| > 0 && |b| > 0 && a[0] == b[0] {
      TextLtTotal(a[1..], b[1..]);
      if a[1..] == b[1..] {
        assert a == [a[0]] + a[1..] && b == [b[0]] + b[1..];
      }
    }
  }

  lemma {:induction false} KeyLtIrreflexive(a: Key)
    ensures !KeyLt(a, a)
  {
    match a
    case Year(_) =>
    case Name(s) => TextLtIrreflexive(s);
    case Pair(p, q) => KeyLtIrreflexive(p); KeyLtIrreflexive(q);
  }

  lemma {:induction false} KeyLtTransitive(a: Key, b: Key, c: Key)
    requires KeyLt(a, b) && KeyLt(b, c)
    ensures KeyLt(a, c)
  {
    match a
    case Year(_) =>
    case Name(s) =>
      if b.Name? && c.Name? {
        TextLtTransitive(s, b.name, c.name);
      }
    case Pair(p, q) =>
      if KeyLt(p, b.fst) && KeyLt(b.fst, c.fst) {
        KeyLtTransitive(p, b.fst, c.fst);
      } else if p == b.fst && b.fst == c.fst {
        KeyLtTransitive(q, b.snd, c.snd);
      }
  }

  lemma {:induction false} KeyLtTotal(a: Key, b: Key)
    ensures a == b || KeyLt(a, b) || KeyLt(b, a)
  {
    match a
    case Year(_) =>
    case Name(s) =>
      if b.Name? {
        TextLtTotal(s, b.name);
      }
    case Pair(p, q) =>
      if b.Pair? {
        KeyLtTotal(p, b.fst);
        KeyLtTotal(q, b.snd);
      }
  }

  /** Keys in strictly ascending order: sorted and without repeats. */
  predicate StrictlyAscending(ks: seq<Key>)
  {
    forall i, j :: 0 <= i < j < |ks| ==> KeyLt(ks[i], ks[j])
  }

  lemma AscendingIsDistinct(ks: seq<Key>)
    requires StrictlyAscending(ks)
    ensures forall i, j :: 0 <= i < j < |ks| ==> ks[i] != ks[j]
  {
    forall i, j | 0 <= i < j < |ks|
      ensures ks[i] != ks[j]
    {
      KeyLtIrreflexive(ks[i]);
    }
  }
}
