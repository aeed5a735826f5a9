/** A whole suite (RunSuite, runTypeFormat, Run): the workers bound to each type and
    format, the cases of it, and the rows all of that adds to the report. */
module Suites {
  import opened Common
  import opened Reporting
  import opened Orchestration
  import opened TestIds

  datatype BindOutcome = Bound | Unsupported(reason: string) | BindFailed(err: string)

  /** A case under its own name and, when its data cannot be encoded, why. */
  datatype Item = Item(name: string, c: Case, encodeError: Option<string>)

  /** One type and format: the workers, what binding each gave, and the cases. */
  datatype Group = Group(typ: string, format: string, langs: seq<string>, refLang: string,
      bind: string -> BindOutcome, items: seq<Item>)

  predicate RefBound(g: Group) { g.refLang in g.langs && g.bind(g.refLang).Bound? }

  /** A type is named after its file, its cases have different names and travel under
      their test ids, and each runs with exactly the languages that bound. */
  ghost predicate ValidGroup(g: Group) {
    && SLASH !in g.typ && (forall it | it in g.items :: it.c.id == TestId(g.typ, g.format, it.name))
    && (forall i, j | 0 <= i < j < |g.items| :: g.items[i].name != g.items[j].name)
    && (forall i, j | 0 <= i < j < |g.langs| :: g.langs[i] != g.langs[j])
    && (RefBound(g) ==>
          forall it | it in g.items ::
            && ValidCase(it.c) && it.c.refLang == g.refLang
            && forall l :: l in it.c.langs <==> l in g.langs && g.bind(l).Bound?)
  }

  function Ids(items: seq<Item>): (ids: seq<string>)
    ensures |ids| == |items| && forall i | 0 <= i < |items| :: ids[i] == items[i].c.id
  {
    seq(|items|, i requires 0 <= i < |items| => items[i].c.id)
  }

  function SuiteIds(groups: seq<Group>): seq<string> {
    if groups == [] then [] else Ids(groups[0].items) + SuiteIds(groups[1..])
  }

  /** Types, the formats of a type and the cases of a type have distinct names. */
  ghost predicate ValidSuite(groups: seq<Group>) {
    && (forall g | g in groups :: ValidGroup(g))
    && forall i, j | 0 <= i < j < |groups| :: groups[i].typ != groups[j].typ || groups[i].format != groups[j].format
  }

  /** The two cases share a test id although their names differ: a slash of one name
      could as well belong to the other format. */
  ghost predicate Clash(g: Group, i: Item, h: Group, j: Item) {
    && g.typ == h.typ
    && (Shifted(SLASH, g.format, i.name, h.format, j.name) || Shifted(SLASH, h.format, j.name, g.format, i.name))
  }

  ghost predicate NoClash(groups: seq<Group>) {
    forall g, h, i, j | g in groups && h in groups && i in g.items && j in h.items :: !Clash(g, i, h, j)
  }

  // ---- the rows of a run ---------------------------------------------------

  /** A serialize row and a deserialize row with one outcome. */
  function Pair(id: string, lang: string, o: Outcome): seq<Row> {
    [Row(Key(id, lang, Serialize), o.status, o.detail), Row(Key(id, lang, Deserialize), o.status, o.detail)]
  }

  /** markType. */
  function Mark(items: seq<Item>, lang: string, o: Outcome): seq<Row> {
    if items == [] then [] else Pair(items[0].c.id, lang, o) + Mark(items[1..], lang, o)
  }

  function EachPair(id: string, langs: seq<string>, o: Outcome): seq<Row> {
    if langs == [] then [] else Pair(id, langs[0], o) + EachPair(id, langs[1..], o)
  }

  /** The outcome recorded for a worker that did not bind; the first loop over the
      workers gives it, or the second when the reference is missing. */
  function Unbound(g: Group, lang: string): Option<Outcome> {
    match g.bind(lang)
    case Unsupported(reason) => Some(Outcome(Skip, reason))
    case BindFailed(err) => Some(Outcome(Error, err))
    case Bound => if RefBound(g) then None else Some(Outcome(Skip, REF_UNSUPPORTED))
  }

  /** The marks, worker by worker; maps give the workers in any order. */
  function Marks(g: Group, order: seq<string>): seq<Row> {
    if order == [] then []
    else (match Unbound(g, order[0]) case None => [] case Some(o) => Mark(g.items, order[0], o)) + Marks(g, order[1..])
  }

  ghost predicate ItemRows(it: Item, rows: seq<Row>) {
    match it.encodeError
    case Some(err) => rows == EachPair(it.c.id, it.c.langs, Outcome(Error, err))
    case None => exists acts :: CaseRun(it.c, acts) && rows == RowsOf(acts)
  }

  ghost predicate ItemsRows(items: seq<Item>, rows: seq<Row>)
    decreases |items|
  {
    if items == [] then rows == []
    else exists n | 0 <= n <= |rows| :: ItemRows(items[0], rows[..n]) && ItemsRows(items[1..], rows[n..])
  }

  /** The rows some run of the group adds. When the reference did not bind, the marks
      of the second loop follow those of the first, which is one of the orders. */
  ghost predicate GroupRows(g: Group, rows: seq<Row>) {
    exists order, n | 0 <= n <= |rows| ::
      && multiset(order) == multiset(g.langs) && rows[..n] == Marks(g, order)
      && (if RefBound(g) then ItemsRows(g.items, rows[n..]) else n == |rows|)
  }

  ghost predicate SuiteRows(groups: seq<Group>, rows: seq<Row>)
    decreases |groups|
  {
    if groups == [] then rows == []
    else exists n | 0 <= n <= |rows| :: GroupRows(groups[0], rows[..n]) && SuiteRows(groups[1..], rows[n..])
  }

  // ---- the same rows whatever the schedule ---------------------------------

  lemma {:induction false} RowCount(acts: seq<Act>, r: Row)
    ensures multiset(RowsOf(acts))[r] == multiset(acts)[Add(r)]
  {
    if acts != [] {
      var init, last := acts[..|acts| - 1], acts[|acts| - 1];
      RowCount(init, r);
      assert acts == init + [last];
    }
  }

  lemma CaseRowsSame(c: Case, a: seq<Act>, b: seq<Act>)
    requires CaseRun(c, a) && CaseRun(c, b)
    ensures multiset(RowsOf(a)) == multiset(RowsOf(b))
  {
    hide CaseRun, PerLang, Threads, Bag, RowsOf;
    CaseRunBag(c, a);
    CaseRunBag(c, b);
    forall r ensures multiset(RowsOf(a))[r] == multiset(RowsOf(b))[r] {
      RowCount(a, r);
      RowCount(b, r);
    }
  }

  lemma ItemSame(it: Item, a: seq<Row>, b: seq<Row>)
    requires ItemRows(it, a) && ItemRows(it, b)
    ensures multiset(a) == multiset(b)
  {
    hide CaseRun, RowsOf;
    if it.encodeError.None? {
      var x :| CaseRun(it.c, x) && a == RowsOf(x);
      var y :| CaseRun(it.c, y) && b == RowsOf(y);
      CaseRowsSame(it.c, x, y);
    }
  }

  lemma SplitBag(rows: seq<Row>, n: nat)
    requires n <= |rows|
    ensures multiset(rows) == multiset(rows[..n]) + multiset(rows[n..])
  {
    assert rows == rows[..n] + rows[n..];
  }

  lemma {:induction false} ItemsSame(items: seq<Item>, a: seq<Row>, b: seq<Row>)
    requires ItemsRows(items, a) && ItemsRows(items, b)
    ensures multiset(a) == multiset(b)
    decreases |items|
  {
    hide ItemRows;
    if items != [] {
      var n :| 0 <= n <= |a| && ItemRows(items[0], a[..n]) && ItemsRows(items[1..], a[n..]);
      var m :| 0 <= m <= |b| && ItemRows(items[0], b[..m]) && ItemsRows(items[1..], b[m..]);
      ItemSame(items[0], a[..n], b[..m]);
      ItemsSame(items[1..], a[n..], b[m..]);
      SplitBag(a, n);
      SplitBag(b, m);
    }
  }

  function MarkOf(g: Group, lang: string): seq<Row> {
    match Unbound(g, lang) case None => [] case Some(o) => Mark(g.items, lang, o)
  }

  lemma {:induction false} MarksAt(g: Group, order: seq<string>, i: nat)
    requires i < |order|
    ensures multiset(Marks(g, order)) == multiset(MarkOf(g, order[i])) + multiset(Marks(g, order[..i] + order[i + 1..]))
  {
    hide MarkOf, Unbound, Mark;
    var less := order[..i] + order[i + 1..];
    MarksStep(g, order);
    if i == 0 {
      assert less == order[1..];
    } else {
      MarksAt(g, order[1..], i - 1);
      MarksStep(g, less);
      assert less[1..] == order[1..][..i - 1] + order[1..][i..];
      var x, y, z := multiset(MarkOf(g, order[0])), multiset(MarkOf(g, order[i])), multiset(Marks(g, less[1..]));
      assert x + (y + z) == y + (x + z);
    }
  }

  lemma MarksStep(g: Group, order: seq<string>)
    requires order != []
    ensures multiset(Marks(g, order)) == multiset(MarkOf(g, order[0])) + multiset(Marks(g, order[1..]))
  {
  }

  lemma WithoutFirst(a: seq<string>, b: seq<string>, i: nat)
    requires multiset(a) == multiset(b) && a != [] && i < |b| && b[i] == a[0]
    ensures multiset(a[1..]) == multiset(b[..i] + b[i + 1..])
  {
    var less := b[..i] + b[i + 1..];
    assert a == [a[0]] + a[1..];
    assert b == b[..i] + [b[i]] + b[i + 1..];
    assert multiset(b) == multiset(b[..i]) + multiset{b[i]} + multiset(b[i + 1..]);
    assert multiset(less) == multiset(b[..i]) + multiset(b[i + 1..]);
    assert multiset(a) == multiset{a[0]} + multiset(a[1..]);
    forall x ensures multiset(a[1..])[x] == multiset(less)[x] {
      assert multiset(a)[x] == multiset{a[0]}[x] + multiset(a[1..])[x];
      assert multiset(b)[x] == multiset(b[..i])[x] + multiset{b[i]}[x] + multiset(b[i + 1..])[x];
    }
  }

  /** The marks do not depend on the order the workers come in. */
  lemma {:induction false} MarksSame(g: Group, a: seq<string>, b: seq<string>)
    requires multiset(a) == multiset(b)
    ensures multiset(Marks(g, a)) == multiset(Marks(g, b))
    decreases |a|
  {
    hide Marks;
    if a == [] {
      assert |b| == |multiset(b)|;
    } else {
      assert a[0] in multiset(a) && a[0] in multiset(b);
      var i :| 0 <= i < |b| && b[i] == a[0];
      WithoutFirst(a, b, i);
      MarksSame(g, a[1..], b[..i] + b[i + 1..]);
      MarksAt(g, b, i);
      MarksStep(g, a);
    }
  }

  lemma GroupSame(g: Group, a: seq<Row>, b: seq<Row>)
    requires GroupRows(g, a) && GroupRows(g, b)
    ensures multiset(a) == multiset(b)
  {
    hide ItemsRows, Marks;
    var o1, n :| 0 <= n <= |a| && multiset(o1) == multiset(g.langs) && a[..n] == Marks(g, o1)
                 && (if RefBound(g) then ItemsRows(g.items, a[n..]) else n == |a|);
    var o2, m :| 0 <= m <= |b| && multiset(o2) == multiset(g.langs) && b[..m] == Marks(g, o2)
                 && (if RefBound(g) then ItemsRows(g.items, b[m..]) else m == |b|);
    MarksSame(g, o1, o2);
    SplitBag(a, n);
    SplitBag(b, m);
    if RefBound(g) {
      ItemsSame(g.items, a[n..], b[m..]);
    } else {
      assert a[n..] == [] && b[m..] == [];
    }
  }

  lemma {:induction false} SuiteSame(groups: seq<Group>, a: seq<Row>, b: seq<Row>)
    requires SuiteRows(groups, a) && SuiteRows(groups, b)
    ensures multiset(a) == multiset(b)
    decreases |groups|
  {
    hide GroupRows;
    if groups != [] {
      var n :| 0 <= n <= |a| && GroupRows(groups[0], a[..n]) && SuiteRows(groups[1..], a[n..]);
      var m :| 0 <= m <= |b| && GroupRows(groups[0], b[..m]) && SuiteRows(groups[1..], b[m..]);
      GroupSame(groups[0], a[..n], b[..m]);
      SuiteSame(groups[1..], a[n..], b[m..]);
      SplitBag(a, n);
      SplitBag(b, m);
    }
  }

  // ---- each row once -------------------------------------------------------

  /** All keys different, test ids among `ids`. */
  ghost predicate RowsOnce(rows: seq<Row>, ids: set<string>) {
    && (forall i, j | 0 <= i < j < |rows| :: rows[i].key != rows[j].key)
    && forall r | r in rows :: r.key.testID in ids
  }

  lemma OnceConcat(a: seq<Row>, b: seq<Row>, x: set<string>, y: set<string>)
    requires RowsOnce(a, x) && RowsOnce(b, y)
    requires forall r, q | r in a && q in b :: r.key != q.key
    ensures RowsOnce(a + b, x + y)
  {
    forall i, j | 0 <= i < j < |a + b| ensures (a + b)[i].key != (a + b)[j].key {
      if i < |a| <= j {
        assert (a + b)[i] in a && (a + b)[j] in b;
      }
    }
  }

  lemma OnceApart(a: seq<Row>, b: seq<Row>, x: set<string>, y: set<string>)
    requires RowsOnce(a, x) && RowsOnce(b, y) && x !! y
    ensures RowsOnce(a + b, x + y)
  {
    OnceConcat(a, b, x, y);
  }

  lemma {:induction false} RowsInOrder(acts: seq<Act>)
    requires OnceEach(acts)
    ensures forall i, j | 0 <= i < j < |RowsOf(acts)| :: RowsOf(acts)[i].key != RowsOf(acts)[j].key
    ensures forall r :: r in RowsOf(acts) <==> Add(r) in acts
  {
    if acts != [] {
      var init, last := acts[..|acts| - 1], acts[|acts| - 1];
      assert acts == init + [last];
      RowsInOrder(init);
      if last.Add? {
        forall r | r in RowsOf(init) ensures r.key != last.row.key {
          var i :| 0 <= i < |init| && init[i] == Add(r);
          assert acts[i] == Add(r);
        }
      }
    }
  }

  /** What the rows of an item are about. */
  lemma ItemOnce(it: Item, rows: seq<Row>)
    requires ValidCase(it.c) && ItemRows(it, rows)
    ensures RowsOnce(rows, {it.c.id}) && forall r | r in rows :: r.key.op == Matrix || r.key.lang in it.c.langs
    ensures forall l | l in it.c.langs :: HasBoth(rows, it.c.id, l)
  {
    hide CaseRun, RowsOf, PerLang;
    match it.encodeError
    case Some(err) => EachPairOnce(it.c.id, it.c.langs, Outcome(Error, err));
    case None =>
      var acts :| CaseRun(it.c, acts) && rows == RowsOf(acts);
      CaseOnceEach(it.c, acts);
      RowsInOrder(acts);
      MatrixBag(it.c);
      hide MatrixThreads, Bag;
      forall r | r in rows ensures r.key.testID == it.c.id && (r.key.op == Matrix || r.key.lang in it.c.langs) {
        CaseActs(it.c, acts, Add(r));
        if l :| l in it.c.langs && Add(r) in PerLang(it.c, l) {
          NoMatrix(it.c, l, Add(r));
        }
      }
      forall l | l in it.c.langs ensures HasBoth(rows, it.c.id, l) {
        CaseVerdicts(it.c, acts, l);
        hide SerializeOutcome, DeserializeOutcome, ItemRows, OnceEach;
        var s, d := SerializeOutcome(it.c, l), DeserializeOutcome(it.c, l);
        assert Row(Key(it.c.id, l, Serialize), s.status, s.detail) in rows;
        assert Row(Key(it.c.id, l, Deserialize), d.status, d.detail) in rows;
      }
  }

  /** Both verdict rows of a case and a language are there. */
  predicate HasBoth(rows: seq<Row>, id: string, lang: string) {
    HasKey(rows, Key(id, lang, Serialize)) && HasKey(rows, Key(id, lang, Deserialize))
  }

  lemma PairOnce(id: string, lang: string, o: Outcome)
    ensures RowsOnce(Pair(id, lang, o), {id}) && HasBoth(Pair(id, lang, o), id, lang)
    ensures forall r | r in Pair(id, lang, o) :: r.key.lang == lang && r.key.op != Matrix
  {
    var p := Pair(id, lang, o);
    assert p[0] in p && p[1] in p;
  }

  lemma HasBothMore(a: seq<Row>, b: seq<Row>, id: string, lang: string)
    ensures HasBoth(a, id, lang) || HasBoth(b, id, lang) ==> HasBoth(a + b, id, lang)
  {
  }

  lemma {:induction false} EachPairOnce(id: string, langs: seq<string>, o: Outcome)
    requires forall i, j | 0 <= i < j < |langs| :: langs[i] != langs[j]
    ensures RowsOnce(EachPair(id, langs, o), {id}) && forall r | r in EachPair(id, langs, o) :: r.key.lang in langs
    ensures forall l | l in langs :: HasBoth(EachPair(id, langs, o), id, l)
  {
    hide Pair, HasBoth;
    if langs != [] {
      var rest := langs[1..];
      EachPairOnce(id, rest, o);
      PairOnce(id, langs[0], o);
      OnceConcat(Pair(id, langs[0], o), EachPair(id, rest, o), {id}, {id});
      assert {id} + {id} == {id};
      forall l | l in langs ensures HasBoth(EachPair(id, langs, o), id, l) {
        HasBothMore(Pair(id, langs[0], o), EachPair(id, rest, o), id, l);
        assert l == langs[0] || l in rest;
      }
    }
  }

  ghost function IdSet(items: seq<Item>): set<string> { set it | it in items :: it.c.id }

  lemma {:induction false} MarkOnce(items: seq<Item>, lang: string, o: Outcome)
    requires AllDifferent(Ids(items))
    ensures RowsOnce(Mark(items, lang, o), IdSet(items))
    ensures forall r | r in Mark(items, lang, o) :: r.key.lang == lang && r.key.op != Matrix
    ensures forall it | it in items :: HasBoth(Mark(items, lang, o), it.c.id, lang)
  {
    hide Pair, HasBoth;
    if items != [] {
      var rest := items[1..];
      TailDifferent(items);
      MarkOnce(rest, lang, o);
      PairOnce(items[0].c.id, lang, o);
      OnceConcat(Pair(items[0].c.id, lang, o), Mark(rest, lang, o), {items[0].c.id}, IdSet(rest));
      assert {items[0].c.id} + IdSet(rest) == IdSet(items);
      forall it | it in items ensures HasBoth(Mark(items, lang, o), it.c.id, lang) {
        HasBothMore(Pair(items[0].c.id, lang, o), Mark(rest, lang, o), it.c.id, lang);
        assert it == items[0] || it in rest;
      }
    }
  }

  lemma TailDifferent(items: seq<Item>)
    requires AllDifferent(Ids(items)) && items != []
    ensures AllDifferent(Ids(items[1..])) && forall it | it in items[1..] :: it.c.id != items[0].c.id
    ensures items[0].c.id !in IdSet(items[1..])
  {
    var ids := Ids(items);
    assert Ids(items[1..]) == ids[1..];
    forall it | it in items[1..] ensures it.c.id != items[0].c.id {
      var i :| 0 <= i < |items[1..]| && items[1..][i] == it;
      assert ids[i + 1] == it.c.id && ids[0] == items[0].c.id;
    }
  }

  lemma {:induction false} MarksOnce(g: Group, order: seq<string>)
    requires AllDifferent(Ids(g.items)) && forall i, j | 0 <= i < j < |order| :: order[i] != order[j]
    ensures RowsOnce(Marks(g, order), IdSet(g.items))
    ensures forall r | r in Marks(g, order) :: r.key.op != Matrix && r.key.lang in order && Unbound(g, r.key.lang).Some?
    ensures forall it, l | it in g.items && l in order && Unbound(g, l).Some? :: HasBoth(Marks(g, order), it.c.id, l)
  {
    hide Mark, HasBoth, Unbound;
    if order != [] {
      var rest := order[1..];
      MarksOnce(g, rest);
      var head := MarkOf(g, order[0]);
      if Unbound(g, order[0]).Some? {
        MarkOnce(g.items, order[0], Unbound(g, order[0]).value);
      }
      OnceConcat(head, Marks(g, rest), IdSet(g.items), IdSet(g.items));
      assert IdSet(g.items) + IdSet(g.items) == IdSet(g.items);
      forall it, l | it in g.items && l in order && Unbound(g, l).Some? ensures HasBoth(Marks(g, order), it.c.id, l) {
        HasBothMore(head, Marks(g, rest), it.c.id, l);
        assert l == order[0] || l in rest;
      }
    }
  }

  lemma {:induction false} ItemsOnce(items: seq<Item>, rows: seq<Row>, langs: set<string>)
    requires AllDifferent(Ids(items)) && ItemsRows(items, rows)
    requires forall it | it in items :: ValidCase(it.c) && forall l :: l in it.c.langs <==> l in langs
    ensures RowsOnce(rows, IdSet(items)) && forall r | r in rows :: r.key.op == Matrix || r.key.lang in langs
    ensures forall it, l | it in items && l in langs :: HasBoth(rows, it.c.id, l)
    decreases |items|
  {
    hide ItemRows, HasBoth, ValidCase;
    if items != [] {
      hide RowsOnce;
      var rest := items[1..];
      var n :| 0 <= n <= |rows| && ItemRows(items[0], rows[..n]) && ItemsRows(rest, rows[n..]);
      hide ItemsRows;
      TailDifferent(items);
      hide AllDifferent;
      assert items[0] in items && forall it | it in rest :: it in items;
      ItemOnce(items[0], rows[..n]);
      ItemsOnce(rest, rows[n..], langs);
      OnceApart(rows[..n], rows[n..], {items[0].c.id}, IdSet(rest));
      assert rows[..n] + rows[n..] == rows;
      assert {items[0].c.id} + IdSet(rest) == IdSet(items);
      forall it, l | it in items && l in langs ensures HasBoth(rows, it.c.id, l) {
        HasBothMore(rows[..n], rows[n..], it.c.id, l);
        assert it == items[0] || it in rest;
      }
    }
  }

  lemma OrderDifferent(order: seq<string>, langs: seq<string>)
    requires multiset(order) == multiset(langs) && forall i, j | 0 <= i < j < |langs| :: langs[i] != langs[j]
    ensures forall i, j | 0 <= i < j < |order| :: order[i] != order[j]
    ensures forall l :: l in order <==> l in langs
  {
    forall l ensures l in order <==> l in langs {
      assert l in multiset(order) <==> l in multiset(langs);
    }
    forall i, j | 0 <= i < j < |order| ensures order[i] != order[j] {
      if order[i] == order[j] {
        var l := order[i];
        assert order == order[..j] + order[j..] && order[..j][i] == l && order[j..][0] == l;
        assert l in multiset(order[..j]) && l in multiset(order[j..]);
        assert multiset(langs)[l] >= 2;
        OnlyOnce(langs, l);
      }
    }
  }

  lemma OnlyOnce(langs: seq<string>, l: string)
    requires forall i, j | 0 <= i < j < |langs| :: langs[i] != langs[j]
    ensures multiset(langs)[l] <= 1
  {
    if i :| 0 <= i < |langs| && langs[i] == l {
      var a, b := langs[..i], langs[i + 1..];
      assert langs == a + [l] + b && l !in a && l !in b;
      assert multiset(langs) == multiset(a) + multiset{l} + multiset(b);
    } else {
      assert l !in langs;
    }
  }

  lemma MissingRefOnce(g: Group, rows: seq<Row>, order: seq<string>)
    requires ValidGroup(g) && AllDifferent(Ids(g.items)) && !RefBound(g)
    requires multiset(order) == multiset(g.langs) && rows == Marks(g, order)
    ensures RowsOnce(rows, IdSet(g.items))
    ensures forall it, l | it in g.items && l in g.langs :: HasBoth(rows, it.c.id, l)
  {
    hide Marks, HasBoth, AllDifferent, RowsOnce;
    OrderDifferent(order, g.langs);
    MarksOnce(g, order);
  }

  lemma BoundRefOnce(g: Group, marks: seq<Row>, runs: seq<Row>, order: seq<string>)
    requires ValidGroup(g) && AllDifferent(Ids(g.items)) && RefBound(g)
    requires multiset(order) == multiset(g.langs) && marks == Marks(g, order) && ItemsRows(g.items, runs)
    ensures RowsOnce(marks + runs, IdSet(g.items))
    ensures forall it, l | it in g.items && l in g.langs :: HasBoth(marks + runs, it.c.id, l)
  {
    hide ItemsRows, Marks, HasBoth, AllDifferent, RowsOnce, ValidCase;
    OrderDifferent(order, g.langs);
    MarksOnce(g, order);
    var bound := set l | l in g.langs && g.bind(l).Bound?;
    ItemsOnce(g.items, runs, bound);
    OnceConcat(marks, runs, IdSet(g.items), IdSet(g.items));
    assert IdSet(g.items) + IdSet(g.items) == IdSet(g.items);
    forall it, l | it in g.items && l in g.langs ensures HasBoth(marks + runs, it.c.id, l) {
      HasBothMore(marks, runs, it.c.id, l);
      assert Unbound(g, l).Some? || l in bound;
    }
  }

  /** A group adds each row once, both verdict rows for every worker and case. */
  lemma GroupOnce(g: Group, rows: seq<Row>)
    requires ValidGroup(g) && AllDifferent(Ids(g.items)) && GroupRows(g, rows)
    ensures RowsOnce(rows, IdSet(g.items))
    ensures forall it, l | it in g.items && l in g.langs :: HasBoth(rows, it.c.id, l)
  {
    hide ItemsRows, Marks, HasBoth, AllDifferent, RowsOnce, ValidGroup;
    var order, n :| 0 <= n <= |rows| && multiset(order) == multiset(g.langs) && rows[..n] == Marks(g, order)
                    && (if RefBound(g) then ItemsRows(g.items, rows[n..]) else n == |rows|);
    if RefBound(g) {
      assert rows == rows[..n] + rows[n..];
      BoundRefOnce(g, rows[..n], rows[n..], order);
    } else {
      assert rows[..n] == rows;
      MissingRefOnce(g, rows, order);
    }
  }

  lemma ConcatDifferent(a: seq<string>, b: seq<string>)
    ensures AllDifferent(a + b) <==> AllDifferent(a) && AllDifferent(b) && forall x, y | x in a && y in b :: x != y
  {
    var all := a + b;
    if AllDifferent(all) {
      forall x, y | x in a && y in b ensures x != y {
        var i :| 0 <= i < |a| && a[i] == x;
        var j :| 0 <= j < |b| && b[j] == y;
        assert all[i] == x && all[|a| + j] == y;
      }
      assert forall i | 0 <= i < |a| :: all[i] == a[i];
      assert forall i | 0 <= i < |b| :: all[|a| + i] == b[i];
    } else if AllDifferent(a) && AllDifferent(b) {
      var i, j :| 0 <= i < j < |all| && all[i] == all[j];
      assert i < |a| <= j;
      assert a[i] in a && b[j - |a|] in b;
    }
  }

  /** The cases of one type and format have ids of their own. */
  lemma GroupIdsDiffer(g: Group)
    requires ValidGroup(g)
    ensures AllDifferent(Ids(g.items))
  {
    forall i, j | 0 <= i < j < |g.items| ensures g.items[i].c.id != g.items[j].c.id {
      var x, y := g.items[i], g.items[j];
      assert x in g.items && y in g.items;
      IdsMeet(g.typ, g.format, x.name, g.typ, g.format, y.name);
      SameFormat(g.format, x.name, y.name);
    }
  }

  lemma SameFormat(format: string, a: string, b: string)
    ensures !Shifted(SLASH, format, a, format, b)
  {
    forall x ensures format != Joined(SLASH, format, x) {
      assert |Joined(SLASH, format, x)| > |format|;
    }
  }

  /** Cases of two groups share an id exactly when they clash. */
  lemma GroupsMeet(g: Group, i: Item, h: Group, j: Item)
    requires ValidGroup(g) && ValidGroup(h) && i in g.items && j in h.items
    requires g.typ != h.typ || g.format != h.format
    ensures i.c.id == j.c.id <==> Clash(g, i, h, j)
  {
    IdsMeet(g.typ, g.format, i.name, h.typ, h.format, j.name);
    hide Shifted, TestId;
  }

  lemma OwnNoClash(g: Group, i: Item, j: Item)
    ensures !Clash(g, i, g, j)
  {
    SameFormat(g.format, i.name, j.name);
    SameFormat(g.format, j.name, i.name);
  }

  lemma ClashSwaps(g: Group, i: Item, h: Group, j: Item)
    ensures Clash(g, i, h, j) <==> Clash(h, j, g, i)
  {
  }

  /** Some case of the first group clashes with one of a later group. */
  ghost predicate ClashFirst(groups: seq<Group>)
    requires groups != []
  {
    exists h, i, j | h in groups[1..] && i in groups[0].items && j in h.items :: Clash(groups[0], i, h, j)
  }

  lemma NoClashStep(groups: seq<Group>)
    requires groups != []
    ensures NoClash(groups) <==> !ClashFirst(groups) && NoClash(groups[1..])
  {
    hide Clash;
    assert groups == [groups[0]] + groups[1..];
    if !ClashFirst(groups) && NoClash(groups[1..]) {
      forall g, h, i, j | g in groups && h in groups && i in g.items && j in h.items ensures !Clash(g, i, h, j) {
        OwnNoClash(g, i, j);
        ClashSwaps(g, i, h, j);
      }
    }
  }

  /** With distinct names the test ids differ exactly when no two cases clash. */
  lemma {:induction false} IdsDifferExactly(groups: seq<Group>)
    requires ValidSuite(groups)
    ensures AllDifferent(SuiteIds(groups)) <==> NoClash(groups)
  {
    hide AllDifferent, Clash, ValidGroup, NoClash, Ids;
    if groups == [] {
      NoIds();
    } else {
      assert groups[0] in groups && forall g | g in groups[1..] :: g in groups;
      IdsDifferExactly(groups[1..]);
      GroupIdsDiffer(groups[0]);
      ConcatDifferent(Ids(groups[0].items), SuiteIds(groups[1..]));
      FirstMeets(groups);
      NoClashStep(groups);
    }
  }

  lemma NoIds()
    ensures AllDifferent<string>([]) && NoClash([])
  {
  }

  lemma LaterGroup(groups: seq<Group>, h: Group)
    requires groups != [] && ValidSuite(groups) && h in groups[1..]
    ensures ValidGroup(groups[0]) && ValidGroup(h) && (groups[0].typ != h.typ || groups[0].format != h.format)
  {
    hide ValidGroup;
    var n :| 0 <= n < |groups[1..]| && groups[1..][n] == h;
    assert groups[n + 1] == h && h in groups && groups[0] in groups;
  }

  lemma FirstMeets(groups: seq<Group>)
    requires groups != [] && ValidSuite(groups)
    ensures ClashFirst(groups) <==> exists x, y | x in Ids(groups[0].items) && y in SuiteIds(groups[1..]) :: x == y
  {
    var g, rest := groups[0], groups[1..];
    hide Clash, ValidGroup, ValidSuite, Ids, SuiteIds;
    forall h, i, j | h in rest && i in g.items && j in h.items ensures i.c.id == j.c.id <==> Clash(g, i, h, j) {
      LaterGroup(groups, h);
      GroupsMeet(g, i, h, j);
    }
    if ClashFirst(groups) {
      var h, i, j :| h in rest && i in g.items && j in h.items && Clash(g, i, h, j);
      IdsAre(g.items, i.c.id);
      SuiteIdsAre(rest, j.c.id);
    }
    if x :| x in Ids(g.items) && x in SuiteIds(rest) {
      IdsAre(g.items, x);
      SuiteIdsAre(rest, x);
    }
  }

  lemma {:induction false} SuiteIdsAre(groups: seq<Group>, x: string)
    ensures x in SuiteIds(groups) <==> exists g, it | g in groups && it in g.items :: it.c.id == x
  {
    hide Ids;
    if groups != [] {
      SuiteIdsAre(groups[1..], x);
      IdsAre(groups[0].items, x);
      assert groups == [groups[0]] + groups[1..];
    }
  }

  lemma IdsAre(items: seq<Item>, x: string)
    ensures x in IdSet(items) <==> x in Ids(items)
  {
    if x in IdSet(items) {
      var it :| it in items && it.c.id == x;
      var i :| 0 <= i < |items| && items[i] == it;
      assert Ids(items)[i] == x;
    }
  }

  /** In every run of a suite, every case of every type and format has its serialize and
      its deserialize row for every worker, bound or not. */
  lemma {:induction false} SuiteComplete(groups: seq<Group>, rows: seq<Row>)
    requires ValidSuite(groups) && SuiteRows(groups, rows)
    ensures forall g, it, l | g in groups && it in g.items && l in g.langs :: HasBoth(rows, it.c.id, l)
    ensures forall r | r in rows :: r.key.testID in SuiteIds(groups)
    decreases |groups|
  {
    hide GroupRows, HasBoth, ValidGroup, AllDifferent, Ids;
    if groups != [] {
      var rest := groups[1..];
      var n :| 0 <= n <= |rows| && GroupRows(groups[0], rows[..n]) && SuiteRows(rest, rows[n..]);
      assert groups[0] in groups && forall g | g in rest :: g in groups;
      GroupIdsDiffer(groups[0]);
      GroupOnce(groups[0], rows[..n]);
      SuiteComplete(rest, rows[n..]);
      forall x ensures x in IdSet(groups[0].items) <==> x in Ids(groups[0].items) { IdsAre(groups[0].items, x); }
      assert rows[..n] + rows[n..] == rows;
      forall g, it, l | g in groups && it in g.items && l in g.langs ensures HasBoth(rows, it.c.id, l) {
        HasBothMore(rows[..n], rows[n..], it.c.id, l);
        assert g == groups[0] || g in rest;
      }
    }
  }

  function IdsOf(groups: seq<Group>): set<string> { set x | x in SuiteIds(groups) }

  /** With distinct names no row is added twice, unless two cases clash. */
  lemma {:induction false} SuiteOnce(groups: seq<Group>, rows: seq<Row>)
    requires ValidSuite(groups) && NoClash(groups) && SuiteRows(groups, rows)
    ensures RowsOnce(rows, IdsOf(groups))
    decreases |groups|
  {
    hide GroupRows, ValidGroup, AllDifferent, Ids, NoClash;
    if groups != [] {
      var rest := groups[1..];
      var n :| 0 <= n <= |rows| && GroupRows(groups[0], rows[..n]) && SuiteRows(rest, rows[n..]);
      IdsDifferExactly(groups);
      ConcatDifferent(Ids(groups[0].items), SuiteIds(rest));
      NoClashStep(groups);
      assert groups[0] in groups && forall g | g in rest :: g in groups;
      GroupOnce(groups[0], rows[..n]);
      SuiteOnce(rest, rows[n..]);
      forall x ensures x in IdSet(groups[0].items) <==> x in Ids(groups[0].items) { IdsAre(groups[0].items, x); }
      var a, b := IdSet(groups[0].items), IdsOf(rest);
      forall r, q | r in rows[..n] && q in rows[n..] ensures r.key != q.key {
        assert r.key.testID in a && q.key.testID in b;
      }
      OnceConcat(rows[..n], rows[n..], a, b);
      assert rows[..n] + rows[n..] == rows;
      assert a + b == IdsOf(groups);
    }
  }

  lemma KeyTwice(a: seq<Row>, b: seq<Row>, k: Key, ids: set<string>)
    requires HasKey(a, k) && HasKey(b, k)
    ensures !RowsOnce(a + b, ids)
  {
    var r :| r in a && r.key == k;
    var q :| q in b && q.key == k;
    var i :| 0 <= i < |a| && a[i] == r;
    var j :| 0 <= j < |b| && b[j] == q;
    assert (a + b)[i].key == (a + b)[|a| + j].key;
  }

  lemma TailOnce(a: seq<Row>, b: seq<Row>, ids: set<string>, tail: set<string>)
    requires RowsOnce(a + b, ids) && forall r | r in b :: r.key.testID in tail
    ensures RowsOnce(b, tail)
  {
    forall i, j | 0 <= i < j < |b| ensures b[i].key != b[j].key {
      assert (a + b)[|a| + i] == b[i] && (a + b)[|a| + j] == b[j];
    }
  }

  /** With distinct names and a worker, a run adds each row once exactly when no two
      cases clash. */
  lemma {:induction false} SuiteOnceExactly(groups: seq<Group>, rows: seq<Row>, lang: string)
    requires ValidSuite(groups) && SuiteRows(groups, rows) && forall g | g in groups :: lang in g.langs
    ensures RowsOnce(rows, IdsOf(groups)) <==> NoClash(groups)
    decreases |groups|
  {
    hide GroupRows, ValidGroup, AllDifferent, Ids, NoClash, RowsOnce, HasBoth;
    if NoClash(groups) {
      SuiteOnce(groups, rows);
    } else if groups == [] {
      NoIds();
    } else {
      var g, rest := groups[0], groups[1..];
      var n :| 0 <= n <= |rows| && GroupRows(g, rows[..n]) && SuiteRows(rest, rows[n..]);
      assert g in groups && (forall h | h in rest :: h in groups) && rows[..n] + rows[n..] == rows;
      NoClashStep(groups);
      SuiteComplete(rest, rows[n..]);
      if ClashFirst(groups) {
        ClashTwice(groups, rows[..n], rows[n..], lang);
      } else {
        SuiteOnceExactly(rest, rows[n..], lang);
        if RowsOnce(rows, IdsOf(groups)) { TailOnce(rows[..n], rows[n..], IdsOf(groups), IdsOf(rest)); }
      }
    }
  }

  lemma ClashTwice(groups: seq<Group>, first: seq<Row>, later: seq<Row>, lang: string)
    requires groups != [] && ValidSuite(groups) && ClashFirst(groups) && forall g | g in groups :: lang in g.langs
    requires GroupRows(groups[0], first)
    requires forall g, it, l | g in groups[1..] && it in g.items && l in g.langs :: HasBoth(later, it.c.id, l)
    ensures !RowsOnce(first + later, IdsOf(groups))
  {
    hide GroupRows, ValidGroup, AllDifferent, Ids, RowsOnce, Clash, SuiteIds;
    var g, rest := groups[0], groups[1..];
    var h, i, j :| h in rest && i in g.items && j in h.items && Clash(g, i, h, j);
    LaterGroup(groups, h);
    assert h in groups && g in groups;
    GroupsMeet(g, i, h, j);
    GroupIdsDiffer(g);
    GroupOnce(g, first);
    assert HasBoth(first, i.c.id, lang) && HasBoth(later, j.c.id, lang);
    KeyTwice(first, later, Key(i.c.id, lang, Serialize), IdsOf(groups));
  }

  // ---- the final state -----------------------------------------------------

  /** What rows with different keys make of a result map. */
  lemma {:induction false} DistinctResults(r: Rep, rows: seq<Row>)
    requires KeysDiffer(rows)
    ensures forall k :: k in AddAll(r, rows).results <==> k in r.results || HasKey(rows, k)
    ensures forall x | x in rows :: x.key in AddAll(r, rows).results && AddAll(r, rows).results[x.key] == x
    ensures forall k | k in r.results && !HasKey(rows, k) :: AddAll(r, rows).results[k] == r.results[k]
  {
    if rows != [] {
      var init, last := rows[..|rows| - 1], rows[|rows| - 1];
      assert rows == init + [last];
      DistinctResults(r, init);
      forall x | x in rows ensures x.key in AddAll(r, rows).results && AddAll(r, rows).results[x.key] == x {
        if x != last {
          var i :| 0 <= i < |rows| && rows[i] == x;
          assert x in init && x.key != last.key;
        }
      }
    }
  }

  lemma SameRowsSameResults(r: Rep, q: Rep, a: seq<Row>, b: seq<Row>)
    requires r.results == q.results && KeysDiffer(a) && KeysDiffer(b) && multiset(a) == multiset(b)
    ensures AddAll(r, a).results == AddAll(q, b).results
  {
    hide AddAll, KeysDiffer;
    DistinctResults(r, a);
    DistinctResults(q, b);
    forall x ensures x in a <==> x in b {
      assert x in multiset(a) <==> x in multiset(b);
    }
    var x, y := AddAll(r, a).results, AddAll(q, b).results;
    forall k ensures k in x <==> k in y { }
    forall k | k in x ensures x[k] == y[k] { }
  }

  /** Types and formats come one after the other, so even rows that clash end up the same. */
  lemma {:induction false} SameResults(groups: seq<Group>, r: Rep, q: Rep, a: seq<Row>, b: seq<Row>)
    requires ValidSuite(groups) && SuiteRows(groups, a) && SuiteRows(groups, b) && r.results == q.results
    ensures AddAll(r, a).results == AddAll(q, b).results
    decreases |groups|
  {
    hide GroupRows, ValidGroup, AddAll, Ids;
    if groups == [] {
      NothingAdded(r);
      NothingAdded(q);
    } else {
      var g, rest := groups[0], groups[1..];
      var n :| 0 <= n <= |a| && GroupRows(g, a[..n]) && SuiteRows(rest, a[n..]);
      var m :| 0 <= m <= |b| && GroupRows(g, b[..m]) && SuiteRows(rest, b[m..]);
      assert g in groups && forall h | h in rest :: h in groups;
      GroupIdsDiffer(g);
      GroupOnce(g, a[..n]);
      GroupOnce(g, b[..m]);
      GroupSame(g, a[..n], b[..m]);
      SameRowsSameResults(r, q, a[..n], b[..m]);
      SameResults(rest, AddAll(r, a[..n]), AddAll(q, b[..m]), a[n..], b[m..]);
      AddAllConcat(r, a[..n], a[n..]);
      AddAllConcat(q, b[..m], b[m..]);
      assert a[..n] + a[n..] == a && b[..m] + b[m..] == b;
    }
  }

  lemma NothingAdded(r: Rep)
    ensures AddAll(r, []) == r
  {
  }

  /** The final result map is the same for every schedule and every order of the
      workers, given the same answers, and so is the exit code; and when no two cases
      clash the exit code says whether a failing row is left. */
  lemma SuiteDeterministic(groups: seq<Group>, a: seq<Row>, b: seq<Row>)
    requires ValidSuite(groups) && SuiteRows(groups, a) && SuiteRows(groups, b)
    ensures AddAll(EMPTY, a).results == AddAll(EMPTY, b).results
    ensures Success(AddAll(EMPTY, a)) <==> Success(AddAll(EMPTY, b))
    ensures NoClash(groups) ==> (Success(AddAll(EMPTY, a)) <==> NoFailingRow(AddAll(EMPTY, a)))
  {
    hide SuiteRows, ValidSuite, AddAll, NoClash;
    SameResults(groups, EMPTY, EMPTY, a, b);
    SuiteSame(groups, a, b);
    forall r ensures r in a <==> r in b {
      assert r in multiset(a) <==> r in multiset(b);
    }
    SuccessAfter(EMPTY, a);
    SuccessAfter(EMPTY, b);
    if NoClash(groups) {
      SuiteOnce(groups, a);
      SuccessMatchesRows(a);
    }
  }

  // ---- the coverage check at the end ---------------------------------------

  /** No declared entry reads like one of the suite's test ids. */
  ghost predicate StaleApart(groups: seq<Group>, expected: map<string, Declared>) {
    forall e | e in Entries(expected) :: e.key !in SuiteIds(groups)
  }

  predicate PlainNames(names: seq<string>) { forall t | t in names :: SLASH !in t }

  /** Names without a slash suffice. */
  lemma PlainDeclarations(groups: seq<Group>, expected: map<string, Declared>)
    requires ValidSuite(groups)
    requires forall l | l in expected :: PlainNames(expected[l].types)
    requires forall l, op | l in expected && op in expected[l].operations ::
               SLASH !in op && PlainNames(expected[l].operations[op])
    ensures StaleApart(groups, expected)
  {
    hide ValidGroup, SuiteIds;
    forall e | e in Entries(expected) ensures e.key !in SuiteIds(groups) {
      SuiteIdsAre(groups, e.key);
      forall g, it | g in groups && it in g.items ensures it.c.id != e.key {
        assert ValidGroup(g);
        PlainEntry(expected, e);
        NotATestId(g, it, e.key);
      }
    }
  }

  /** A declared type that reads like a test id can hide a failure: its stale row is
      written over the failing one. */
  lemma StaleHides(lang: string)
    ensures var k, stale := Key(TestId("t", "a", "b"), lang, Serialize), StaleRow(Entry(lang, "t/a/b"));
            var rows := [Row(k, Fail, ""), stale];
            stale.key == k && !Success(AddAll(EMPTY, rows)) && NoFailingRow(AddAll(EMPTY, rows))
  {
    var k, stale := Key(TestId("t", "a", "b"), lang, Serialize), StaleRow(Entry(lang, "t/a/b"));
    assert "t" + ['/'] + ("a" + ['/'] + "b") == "t/a/b";
    var rows := [Row(k, Fail, ""), stale];
    assert rows[0] in rows;
    SuccessAfter(EMPTY, rows);
    LastRowWins(EMPTY, rows, 1);
    RowsComeFrom(rows);
    assert forall x | x in rows :: x.key == k;
  }

  /** At most one slash, and none in front of it. */
  ghost predicate OneSlash(key: string) {
    SLASH !in key || exists op, t | SLASH !in op && SLASH !in t :: key == Joined(SLASH, op, t)
  }

  lemma PlainEntry(expected: map<string, Declared>, e: Entry)
    requires e in Entries(expected)
    requires forall l | l in expected :: PlainNames(expected[l].types)
    requires forall l, op | l in expected && op in expected[l].operations ::
               SLASH !in op && PlainNames(expected[l].operations[op])
    ensures OneSlash(e.key)
  {
    hide Joined;
    if l, op, t :| l in expected && op in expected[l].operations && t in expected[l].operations[op] &&
                   e == Entry(l, Joined(SLASH, op, t)) {
      assert SLASH !in op && SLASH !in t;
    } else {
      assert e.key in expected[e.lang].types;
    }
  }

  lemma NotATestId(g: Group, it: Item, key: string)
    requires ValidGroup(g) && it in g.items && OneSlash(key)
    ensures it.c.id != key
  {
    var rest := Joined(SLASH, g.format, it.name);
    JoinedAt(SLASH, g.format, it.name);
    JoinedAt(SLASH, g.typ, rest);
    assert it.c.id == Joined(SLASH, g.typ, rest);
    assert rest[|g.format|] == SLASH && it.c.id[|g.typ|] == SLASH;
    assert SLASH in rest && SLASH in it.c.id;
    if SLASH in key {
      var op, t :| SLASH !in op && SLASH !in t && key == Joined(SLASH, op, t);
      JoinedMeet(SLASH, op, t, g.typ, rest);
      PlainNeverShifts(SLASH, op, t, g.typ, rest);
      PlainNeverShifts(SLASH, g.typ, rest, op, t);
      assert t != rest;
    }
  }

  lemma OnlySkipsConcat(a: seq<Row>, b: seq<Row>)
    requires OnlySkipsOverwritten(a) && OnlySkipsOverwritten(b)
    requires forall x, y | x in a && y in b && x.key == y.key :: x.status == Skip
    ensures OnlySkipsOverwritten(a + b)
  {
    forall i, j | 0 <= i < j < |a + b| && (a + b)[i].key == (a + b)[j].key ensures (a + b)[i].status == Skip {
      if i < |a| <= j {
        assert (a + b)[i] in a && (a + b)[j] in b;
      }
    }
  }

  lemma DistinctSkips(rows: seq<Row>)
    requires KeysDiffer(rows)
    ensures OnlySkipsOverwritten(rows)
  {
  }

  /** The rows a run adds, then those the check adds: each of the check's rows stands
      for a skip, or under a key of its own. */
  lemma OnlySkips(rows: seq<Row>, ids: set<string>, undeclared: seq<Row>, stale: seq<Row>)
    requires RowsOnce(rows, ids) && KeysDiffer(undeclared) && KeysDiffer(stale)
    requires forall u | u in undeclared ::
             u.key in AddAll(EMPTY, rows).results && AddAll(EMPTY, rows).results[u.key].status == Skip
    requires forall w | w in stale :: w.key.testID !in ids
    ensures OnlySkipsOverwritten(rows + (undeclared + stale))
  {
    DistinctResults(EMPTY, rows);
    DistinctSkips(rows);
    DistinctSkips(undeclared);
    DistinctSkips(stale);
    hide AddAll, OnlySkipsOverwritten, KeysDiffer;
    forall u | u in undeclared ensures u.key.testID in ids {
      var r :| r in rows && r.key == u.key;
    }
    OnlySkipsConcat(undeclared, stale);
    OnlySkipsConcat(rows, undeclared + stale);
  }

  /** A whole run: the rows of a suite, the coverage check, the closing count. It
      succeeds exactly when no row is left failing, which is when none was before the
      check and every skip that is not a cascade was declared. */
  method RunAndCheck(rep: Report, rows: seq<Row>, expected: map<string, Declared>, ghost groups: seq<Group>)
    returns (t: Tally)
    requires rep.State() == EMPTY
    requires ValidSuite(groups) && NoClash(groups) && SuiteRows(groups, rows) && StaleApart(groups, expected)
    modifies rep
    ensures Success(rep.State()) <==> t.fail == 0
    ensures Success(rep.State()) <==>
            NoFailingRow(AddAll(EMPTY, rows)) &&
              forall k | k in AddAll(EMPTY, rows).results :: !Undeclared(expected, AddAll(EMPTY, rows).results[k])
  {
    hide AddAll, ValidSuite, NoClash, SuiteRows, Undeclared, Entries, OnlySkipsOverwritten, KeysDiffer, RowsOnce,
      SuiteIds;
    SuiteOnce(groups, rows);
    rep.AddEach(rows);
    ghost var was := AddAll(EMPTY, rows);
    rep.CheckExpectedSkips(expected);
    ghost var undeclared: seq<Row>, stale: seq<Row> :|
      && rep.State() == AddAll(was, undeclared + stale)
      && (forall k :: HasKey(undeclared, k) <==> k in was.results && Undeclared(expected, was.results[k]))
      && KeysDiffer(undeclared) && (forall r | r in undeclared :: r.status == Fail)
      && KeysDiffer(stale)
      && (forall r :: r in stale <==>
            exists e | e in Entries(expected) :: r == StaleRow(e) && !EntryUsed(expected, was.results, e));
    forall u | u in undeclared ensures u.key in was.results && was.results[u.key].status == Skip {
      assert HasKey(undeclared, u.key);
      UndeclaredSkips(expected, was.results[u.key]);
    }
    IdsOfAre(groups);
    OnlySkips(rows, IdsOf(groups), undeclared, stale);
    AddAllConcat(EMPTY, rows, undeclared + stale);
    SuccessMatchesRows(rows + (undeclared + stale));
    OnceMatches(rows, IdsOf(groups));
    t := Count(rep.results);
  }

  lemma UndeclaredSkips(expected: map<string, Declared>, r: Row)
    requires Undeclared(expected, r)
    ensures r.status == Skip
  {
  }

  lemma IdsOfAre(groups: seq<Group>)
    ensures forall x :: x in IdsOf(groups) <==> x in SuiteIds(groups)
  {
  }

  lemma OnceMatches(rows: seq<Row>, ids: set<string>)
    requires RowsOnce(rows, ids)
    ensures Success(AddAll(EMPTY, rows)) <==> NoFailingRow(AddAll(EMPTY, rows))
  {
    SuccessMatchesRows(rows);
  }

  /** The clashing suite: two formats, two cases, four distinct names, one worker that
      fails to bind the first format and does not support the second. */
  function ClashingGroup(c: Case, typ: string, format: string, bound: BindOutcome): Group {
    Group(typ, format, ["go"], "go", _ => bound,
          [Item("b/c", c.(id := TestId(typ, format, "b/c")), None),
            Item("c", c.(id := TestId(typ, format, "c")), None)])
  }

  lemma ClashingGroupValid(c: Case, typ: string, format: string, bound: BindOutcome)
    requires SLASH !in typ && !bound.Bound?
    ensures ValidGroup(ClashingGroup(c, typ, format, bound))
    ensures GroupRows(ClashingGroup(c, typ, format, bound), Marks(ClashingGroup(c, typ, format, bound), ["go"]))
  {
    hide TestId;
    var g := ClashingGroup(c, typ, format, bound);
    var rows := Marks(g, ["go"]);
    assert rows[..|rows|] == rows;
    hide Marks;
    assert multiset(["go"]) == multiset(g.langs);
  }

  lemma TwoGroups(g: Group, h: Group, i: Item, j: Item, a: seq<Row>, b: seq<Row>)
    requires ValidGroup(g) && ValidGroup(h) && g.format != h.format && GroupRows(g, a) && GroupRows(h, b)
    requires i in g.items && j in h.items && i.c.id == j.c.id
    ensures ValidSuite([g, h]) && !NoClash([g, h]) && SuiteRows([g, h], a + b)
  {
    hide ValidGroup, GroupRows, Clash;
    GroupsMeet(g, i, h, j);
    assert g in [g, h] && h in [g, h];
    OneGroup(h, b);
    assert (a + b)[..|a|] == a && (a + b)[|a|..] == b && [g, h][1..] == [h];
  }

  lemma LaterGroupWins(g: Group, h: Group, a: seq<Row>, b: seq<Row>, r: Row)
    requires ValidGroup(h) && GroupRows(h, b) && r in b
    ensures r.key in AddAll(EMPTY, a + b).results && AddAll(EMPTY, a + b).results[r.key] == r
  {
    hide ValidGroup, GroupRows, AddAll, Ids;
    GroupIdsDiffer(h);
    GroupOnce(h, b);
    AddAllConcat(EMPTY, a, b);
    DistinctResults(AddAll(EMPTY, a), b);
  }

  lemma ClashingParts(c: Case, typ: string, format: string, bound: BindOutcome)
    requires !bound.Bound?
    ensures var g := ClashingGroup(c, typ, format, bound);
            && g.format == format && |g.items| == 2 && Unbound(g, "go").Some?
            && g.items[0] in g.items && g.items[0].c.id == TestId(typ, format, "b/c")
            && g.items[1] in g.items && g.items[1].c.id == TestId(typ, format, "c")
    ensures var o := Unbound(ClashingGroup(c, typ, format, bound), "go").value;
            match bound
            case Unsupported(s) => o == Outcome(Skip, s)
            case BindFailed(s) => o == Outcome(Error, s)
  {
    hide TestId;
  }

  /** Its error row is overwritten: the report ends with a SKIP for that case. */
  lemma ClashOverwrites(c: Case)
    ensures var g, h := ClashingGroup(c, "t", "a", BindFailed("x")), ClashingGroup(c, "t", "a/b", Unsupported("y"));
            var rows, k := Marks(g, ["go"]) + Marks(h, ["go"]), Key(TestId("t", "a", "b/c"), "go", Serialize);
            && ValidSuite([g, h]) && !NoClash([g, h]) && SuiteRows([g, h], rows)
            && Row(k, Error, "x") in rows && k in AddAll(EMPTY, rows).results
            && AddAll(EMPTY, rows).results[k] == Row(k, Skip, "y")
  {
    var g, h := ClashingGroup(c, "t", "a", BindFailed("x")), ClashingGroup(c, "t", "a/b", Unsupported("y"));
    var a, b, k := Marks(g, ["go"]), Marks(h, ["go"]), Key(TestId("t", "a", "b/c"), "go", Serialize);
    ClashingGroupValid(c, "t", "a", BindFailed("x"));
    ClashingGroupValid(c, "t", "a/b", Unsupported("y"));
    ClashingParts(c, "t", "a", BindFailed("x"));
    ClashingParts(c, "t", "a/b", Unsupported("y"));
    NamesCollide("t");
    assert |"a"| != |"a/b"|;
    hide *;
    MarkedAt(g, 0);
    MarkedAt(h, 1);
    TwoGroups(g, h, g.items[0], h.items[1], a, b);
    LaterGroupWins(g, h, a, b, Row(k, Skip, "y"));
  }

  lemma OneGroup(h: Group, b: seq<Row>)
    requires GroupRows(h, b)
    ensures SuiteRows([h], b)
  {
    assert b[..|b|] == b && b[|b|..] == [] && [h][1..] == [];
  }

  lemma MarkedAt(g: Group, n: nat)
    requires n < |g.items| == 2 && Unbound(g, "go").Some?
    ensures var o := Unbound(g, "go").value;
            Row(Key(g.items[n].c.id, "go", Serialize), o.status, o.detail) in Marks(g, ["go"])
  {
    var o := Unbound(g, "go").value;
    var p := Pair(g.items[n].c.id, "go", o);
    assert p[0] in p;
    var rest := g.items[1..];
    assert rest[0] == g.items[1] && rest[1..] == [];
    assert Mark(rest, "go", o) == Pair(rest[0].c.id, "go", o) + [];
    assert Mark(g.items, "go", o) == Pair(g.items[0].c.id, "go", o) + Mark(rest, "go", o);
    assert ["go"][1..] == [];
    assert Marks(g, ["go"]) == Mark(g.items, "go", o) + [];
  }
}
