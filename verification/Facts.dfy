/** The bitemporal versions crates/context-graph keeps of one node or edge. */
module Facts {
  import opened Wrappers
  import opened Bytes

  // Half-open; an absent end means open-ended.
  datatype Interval = Interval(start: i64, end: Option<i64>)

  predicate ValidInterval(t: Interval) {
    t.start >= 0 && (t.end.Some? ==> t.end.value > t.start)
  }

  predicate Contains(t: Interval, at: i64) {
    at >= t.start && (t.end.Some? ==> at < t.end.value)
  }

  datatype Provenance = Provenance(source: string, artifactId: string, confidence: real)

  datatype Fact<T> = Fact(subject: T, valid: Interval, known: Interval, provenance: Provenance)

  predicate Visible<T>(f: Fact<T>, validAt: i64, knownAt: i64) {
    Contains(f.valid, validAt) && Contains(f.known, knownAt)
  }

  // A fact that overtakes a version: about the same time, known later, while the version still ran.
  predicate Overtakes<T>(f: Fact<T>, version: Fact<T>) {
    && version.valid == f.valid
    && version.known.start < f.known.start
    && (version.known.end.Some? ==> version.known.end.value > f.known.start)
  }

  function Close<T>(version: Fact<T>, f: Fact<T>): Fact<T> {
    if Overtakes(f, version) then version.(known := version.known.(end := Some(f.known.start))) else version
  }

  function CloseAll<T>(versions: seq<Fact<T>>, f: Fact<T>): (r: seq<Fact<T>>)
    ensures |r| == |versions|
  {
    seq(|versions|, i requires 0 <= i < |versions| => Close(versions[i], f))
  }

  // The sort key, compared as a pair.
  predicate NotAfter<T>(a: Fact<T>, b: Fact<T>) {
    a.known.start < b.known.start || (a.known.start == b.known.start && a.valid.start <= b.valid.start)
  }

  // Where a stable sort puts one more element behind sorted ones.
  function Place<T>(versions: seq<Fact<T>>, f: Fact<T>): (i: nat)
    ensures i <= |versions|
  {
    if versions == [] || NotAfter(versions[|versions| - 1], f) then |versions| else Place(versions[..|versions| - 1], f)
  }

  function InsertAt<T>(versions: seq<Fact<T>>, i: nat, f: Fact<T>): (r: seq<Fact<T>>)
    requires i <= |versions|
    ensures |r| == |versions| + 1
  {
    versions[..i] + [f] + versions[i..]
  }

  function StableSort<T>(versions: seq<Fact<T>>): (r: seq<Fact<T>>)
    ensures |r| == |versions|
  {
    if versions == [] then [] else
    var sorted := StableSort(versions[..|versions| - 1]);
    var last := versions[|versions| - 1];
    InsertAt(sorted, Place(sorted, last), last)
  }

  function Upsert<T(==)>(versions: seq<Fact<T>>, f: Fact<T>): seq<Fact<T>> {
    if f in versions then versions else StableSort(CloseAll(versions, f) + [f])
  }

  // --- nothing is lost, and the past is not rewritten ---

  // A version without the end of its knowledge, which later versions may set.
  function Content<T>(f: Fact<T>): Fact<T> { f.(known := f.known.(end := None)) }

  // A question to the store: everything retained, or what was visible at a valid and a knowledge time.
  datatype Query = Retained | AsOf(validAt: i64, knownAt: i64)

  predicate Answers<T>(f: Fact<T>, query: Query) {
    query.AsOf? ==>
      && f.valid.start <= query.validAt && (f.valid.end == None || query.validAt < f.valid.end.value)
      && f.known.start <= query.knownAt && (f.known.end == None || query.knownAt < f.known.end.value)
  }

  // How often some content is in the answer.
  function Count<T(==)>(versions: seq<Fact<T>>, content: Fact<T>, query: Query): nat {
    if versions == [] then 0 else
    Count(versions[..|versions| - 1], content, query) + Once(versions[|versions| - 1], content, query)
  }

  function Once<T(==)>(f: Fact<T>, content: Fact<T>, query: Query): nat {
    if Content(f) == content && Answers(f, query) then 1 else 0
  }

  // A version about the same time as the fact, known before it and still running when its knowledge starts.
  predicate Superseded<T>(version: Fact<T>, f: Fact<T>) {
    && version.valid == f.valid
    && version.known.start < f.known.start
    && (version.known.end == None || f.known.start < version.known.end.value)
  }

  // The versions a fact does not supersede.
  function Standing<T>(versions: seq<Fact<T>>, f: Fact<T>): seq<Fact<T>> {
    if versions == [] then [] else
    Standing(versions[..|versions| - 1], f)
      + (if Superseded(versions[|versions| - 1], f) then [] else [versions[|versions| - 1]])
  }

  lemma CountSnoc<T>(versions: seq<Fact<T>>, f: Fact<T>, content: Fact<T>, query: Query)
    ensures Count(versions + [f], content, query) == Count(versions, content, query) + Once(f, content, query)
  {
    assert (versions + [f])[..|versions|] == versions;
  }

  lemma {:induction false} CountConcat<T>(a: seq<Fact<T>>, b: seq<Fact<T>>, content: Fact<T>, query: Query)
    ensures Count(a + b, content, query) == Count(a, content, query) + Count(b, content, query)
  {
    hide Once;
    if b == [] {
      assert a + b == a;
    } else {
      var shorter := b[..|b| - 1];
      CountConcat(a, shorter, content, query);
      assert a + b == (a + shorter) + [b[|b| - 1]];
      CountSnoc(a + shorter, b[|b| - 1], content, query);
    }
  }

  lemma CountInsert<T>(versions: seq<Fact<T>>, i: nat, f: Fact<T>, content: Fact<T>, query: Query)
    requires i <= |versions|
    ensures Count(InsertAt(versions, i, f), content, query) == Count(versions, content, query) + Once(f, content, query)
  {
    hide Once, Count;
    CountConcat(versions[..i] + [f], versions[i..], content, query);
    CountSnoc(versions[..i], f, content, query);
    CountConcat(versions[..i], versions[i..], content, query);
    assert versions == versions[..i] + versions[i..];
  }

  lemma {:induction false} CountSort<T>(versions: seq<Fact<T>>, content: Fact<T>, query: Query)
    ensures Count(StableSort(versions), content, query) == Count(versions, content, query)
  {
    hide InsertAt, Place, Once;
    if versions != [] {
      var shorter, last := versions[..|versions| - 1], versions[|versions| - 1];
      CountSort(shorter, content, query);
      CountInsert(StableSort(shorter), Place(StableSort(shorter), last), last, content, query);
    }
  }

  // Closing changes only what is seen from the new fact's knowledge time on.
  lemma {:induction false} CountClose<T>(versions: seq<Fact<T>>, f: Fact<T>, content: Fact<T>, query: Query)
    ensures Count(CloseAll(versions, f), content, query) ==
              if query.Retained? || query.knownAt < f.known.start then Count(versions, content, query)
              else Count(Standing(versions, f), content, query)
  {
    hide Once, Overtakes, Close, Superseded;
    if versions != [] {
      var n := |versions| - 1;
      CountClose(versions[..n], f, content, query);
      assert CloseAll(versions, f)[..n] == CloseAll(versions[..n], f);
      OnceClosed(versions[n], f, content, query);
      if Superseded(versions[n], f) {
        assert Standing(versions, f) == Standing(versions[..n], f);
      } else {
        CountSnoc(Standing(versions[..n], f), versions[n], content, query);
      }
    }
  }

  lemma OnceClosed<T>(version: Fact<T>, f: Fact<T>, content: Fact<T>, query: Query)
    ensures Once(Close(version, f), content, query) ==
              if Superseded(version, f) && query.AsOf? && query.knownAt >= f.known.start then 0
                else Once(version, content, query)
  {
  }

  // What a new fact does to every answer: nothing where its knowledge has not started; from then on
  // it is added and exactly the versions it supersedes are gone. What is retained only grows.
  lemma UpsertAnswers<T>(versions: seq<Fact<T>>, f: Fact<T>, content: Fact<T>, query: Query)
    requires f !in versions
    ensures Count(Upsert(versions, f), content, query) ==
              if query.Retained? then Count(versions, content, query) + (if Content(f) == content then 1 else 0)
              else if query.knownAt < f.known.start then Count(versions, content, query)
              else Count(Standing(versions, f), content, query) + Once(f, content, query)
  {
    hide StableSort, CloseAll, Count, Standing;
    var closed := CloseAll(versions, f);
    CountSort(closed + [f], content, query);
    CountSnoc(closed, f, content, query);
    CountClose(versions, f, content, query);
  }

  // No answer about any other time changes.
  lemma OtherTimesStay<T>(versions: seq<Fact<T>>, f: Fact<T>, content: Fact<T>, query: Query)
    requires content.valid != f.valid
    ensures Count(Upsert(versions, f), content, query) == Count(versions, content, query)
  {
    hide Upsert, Count, Standing;
    if f in versions {
      UpsertAgain(versions, f);
    } else {
      UpsertAnswers(versions, f, content, query);
      OthersStand(versions, f, content, query);
    }
  }

  lemma UpsertAgain<T>(versions: seq<Fact<T>>, f: Fact<T>)
    requires f in versions
    ensures Upsert(versions, f) == versions
  {
  }

  lemma {:induction false} OthersStand<T>(versions: seq<Fact<T>>, f: Fact<T>, content: Fact<T>, query: Query)
    requires content.valid != f.valid
    ensures Count(Standing(versions, f), content, query) == Count(versions, content, query)
  {
    if versions != [] {
      var n := |versions| - 1;
      OthersStand(versions[..n], f, content, query);
      if Superseded(versions[n], f) {
        assert Standing(versions, f) == Standing(versions[..n], f);
      } else {
        CountSnoc(Standing(versions[..n], f), versions[n], content, query);
      }
    }
  }

  // One version after the fact has arrived.
  function Updated<T>(version: Fact<T>, f: Fact<T>): Fact<T> {
    if Superseded(version, f)
    then Fact(version.subject, version.valid, Interval(version.known.start, Some(f.known.start)), version.provenance)
    else version
  }

  // What is stored then: every superseded version with its knowledge ended, every other one as it was, and
  // the fact, each once.
  lemma UpsertStores<T>(versions: seq<Fact<T>>, f: Fact<T>)
    requires f !in versions
    ensures var updated := seq(|versions|, i requires 0 <= i < |versions| => Updated(versions[i], f));
            multiset(Upsert(versions, f)) == multiset(updated) + multiset{f}
  {
    hide StableSort;
    assert CloseAll(versions, f) == seq(|versions|, i requires 0 <= i < |versions| => Updated(versions[i], f));
    SortPermutes(CloseAll(versions, f) + [f]);
  }

  lemma {:induction false} SortPermutes<T>(versions: seq<Fact<T>>)
    ensures multiset(StableSort(versions)) == multiset(versions)
  {
    hide Place;
    if versions != [] {
      var n := |versions| - 1;
      SortPermutes(versions[..n]);
      var sorted := StableSort(versions[..n]);
      var i := Place(sorted, versions[n]);
      assert sorted == sorted[..i] + sorted[i..];
      assert versions == versions[..n] + [versions[n]];
    }
  }

  // --- at most one version at a time ---

  predicate Apart<T>(a: Fact<T>, b: Fact<T>) {
    a.valid == b.valid ==>
      (a.known.end.Some? && a.known.end.value <= b.known.start)
        || (b.known.end.Some? && b.known.end.value <= a.known.start)
  }

  // Versions about the same time are never known together.
  predicate Exclusive<T>(versions: seq<Fact<T>>) {
    forall i, j | 0 <= i < j < |versions| :: Apart(versions[i], versions[j])
  }

  lemma ExclusiveMeansOne<T>(versions: seq<Fact<T>>, i: nat, j: nat, validAt: i64, knownAt: i64)
    requires Exclusive(versions) && i < j < |versions| && versions[i].valid == versions[j].valid
    ensures !(Visible(versions[i], validAt, knownAt) && Visible(versions[j], validAt, knownAt))
  {
    assert Apart(versions[i], versions[j]);
  }

  // No valid and knowledge time shows two versions about the same time.
  ghost predicate SeesOne<T>(versions: seq<Fact<T>>) {
    forall i, j, validAt, knownAt | 0 <= i < j < |versions| && versions[i].valid == versions[j].valid ::
      !(Visible(versions[i], validAt, knownAt) && Visible(versions[j], validAt, knownAt))
  }

  predicate Dated<T>(f: Fact<T>) { ValidInterval(f.valid) && ValidInterval(f.known) }

  predicate AllDated<T>(versions: seq<Fact<T>>) {
    forall i | 0 <= i < |versions| :: Dated(versions[i])
  }

  // Two versions about the same time that are not apart are seen together, at the start of that time
  // and from when both were known.
  lemma TogetherSomewhere<T>(a: Fact<T>, b: Fact<T>)
    requires Dated(a) && Dated(b) && !Apart(a, b)
    ensures var knownAt := if a.known.start < b.known.start then b.known.start else a.known.start;
            a.valid == b.valid && Visible(a, a.valid.start, knownAt) && Visible(b, a.valid.start, knownAt)
  {
  }

  lemma ExclusiveSeesOne<T>(versions: seq<Fact<T>>)
    requires AllDated(versions)
    ensures Exclusive(versions) <==> SeesOne(versions)
  {
    hide Apart, Visible, Dated;
    if Exclusive(versions) {
      forall i, j, validAt, knownAt | 0 <= i < j < |versions| && versions[i].valid == versions[j].valid
        ensures !(Visible(versions[i], validAt, knownAt) && Visible(versions[j], validAt, knownAt))
      {
        ExclusiveMeansOne(versions, i, j, validAt, knownAt);
      }
    }
    if SeesOne(versions) {
      forall i, j | 0 <= i < j < |versions|
        ensures Apart(versions[i], versions[j])
      {
        if !Apart(versions[i], versions[j]) {
          assert Dated(versions[i]) && Dated(versions[j]);
          TogetherSomewhere(versions[i], versions[j]);
        }
      }
    }
  }

  predicate Ordered<T>(versions: seq<Fact<T>>) {
    forall i, j | 0 <= i < j < |versions| ::
      && versions[i].known.start <= versions[j].known.start
      && (versions[i].known.start == versions[j].known.start ==> versions[i].valid.start <= versions[j].valid.start)
  }

  lemma {:induction false} PlaceFits<T>(versions: seq<Fact<T>>, f: Fact<T>)
    requires Ordered(versions)
    ensures forall i | 0 <= i < Place(versions, f) :: NotAfter(versions[i], f)
    ensures forall i | Place(versions, f) <= i < |versions| :: !NotAfter(versions[i], f)
  {
    if versions != [] && !NotAfter(versions[|versions| - 1], f) {
      PlaceFits(versions[..|versions| - 1], f);
    }
  }

  lemma InsertOrdered<T>(versions: seq<Fact<T>>, f: Fact<T>)
    requires Ordered(versions)
    ensures Ordered(InsertAt(versions, Place(versions, f), f))
  {
    PlaceFits(versions, f);
  }

  lemma {:induction false} SortOrders<T>(versions: seq<Fact<T>>)
    ensures Ordered(StableSort(versions))
  {
    hide Place, InsertAt;
    if versions != [] {
      var shorter := versions[..|versions| - 1];
      SortOrders(shorter);
      InsertOrdered(StableSort(shorter), versions[|versions| - 1]);
    }
  }

  // Sorting what is in order already changes nothing.
  lemma {:induction false} SortOfOrdered<T>(versions: seq<Fact<T>>)
    requires Ordered(versions)
    ensures StableSort(versions) == versions
  {
    if versions != [] {
      var n := |versions| - 1;
      SortOfOrdered(versions[..n]);
      assert n > 0 ==> NotAfter(versions[n - 1], versions[n]);
      assert InsertAt(versions[..n], n, versions[n]) == versions;
    }
  }

  lemma UpsertInserts<T>(versions: seq<Fact<T>>, f: Fact<T>)
    requires Ordered(versions) && f !in versions
    ensures Ordered(Upsert(versions, f))
    ensures var i := Place(CloseAll(versions, f), f); Upsert(versions, f) == InsertAt(CloseAll(versions, f), i, f)
  {
    hide InsertAt, Place;
    var closed := CloseAll(versions, f);
    assert Ordered(closed);
    assert (closed + [f])[..|closed|] == closed;
    SortOfOrdered(closed);
    SortOrders(closed + [f]);
  }

  // The new fact's own knowledge must end before any version that starts no earlier.
  predicate Room<T>(versions: seq<Fact<T>>, f: Fact<T>) {
    forall i | 0 <= i < |versions| && versions[i].valid == f.valid && versions[i].known.start >= f.known.start ::
      f.known.end.Some? && f.known.end.value <= versions[i].known.start
  }

  lemma InsertExclusive<T>(versions: seq<Fact<T>>, i: nat, f: Fact<T>)
    requires i <= |versions|
    ensures Exclusive(InsertAt(versions, i, f)) <==>
              Exclusive(versions) && forall j | 0 <= j < |versions| :: Apart(versions[j], f)
  {
    var r := InsertAt(versions, i, f);
    if Exclusive(r) {
      forall j | 0 <= j < |versions|
        ensures Apart(versions[j], f)
      {
        assert r[i] == f && r[if j < i then j else j + 1] == versions[j];
      }
      forall j, k | 0 <= j < k < |versions|
        ensures Apart(versions[j], versions[k])
      {
        assert r[if j < i then j else j + 1] == versions[j] && r[if k < i then k else k + 1] == versions[k];
      }
    }
    if Exclusive(versions) && forall j | 0 <= j < |versions| :: Apart(versions[j], f) {
      forall j, k | 0 <= j < k < |r|
        ensures Apart(r[j], r[k])
      {
        assert j < i ==> r[j] == versions[j];
        assert j > i ==> r[j] == versions[j - 1];
        assert k < i ==> r[k] == versions[k];
        assert k > i ==> r[k] == versions[k - 1];
      }
    }
  }

  predicate WellTimed<T>(versions: seq<Fact<T>>) {
    forall i | 0 <= i < |versions| :: ValidInterval(versions[i].known)
  }

  lemma ClosedIsApart<T>(version: Fact<T>, f: Fact<T>)
    requires ValidInterval(version.known) && ValidInterval(f.known)
    ensures Apart(Close(version, f), f) <==>
              (version.valid == f.valid && version.known.start >= f.known.start ==>
                f.known.end.Some? && f.known.end.value <= version.known.start)
    ensures ValidInterval(Close(version, f).known)
  {
  }

  lemma CloseExclusive<T>(versions: seq<Fact<T>>, f: Fact<T>)
    requires Exclusive(versions)
    ensures Exclusive(CloseAll(versions, f))
  {
    forall i, j | 0 <= i < j < |versions|
      ensures Apart(CloseAll(versions, f)[i], CloseAll(versions, f)[j])
    {
      assert Apart(versions[i], versions[j]);
    }
  }

  lemma {:induction false} SortKeepsElements<T>(versions: seq<Fact<T>>, f: Fact<T>)
    ensures f in StableSort(versions) <==> f in versions
  {
    hide Place;
    if versions != [] {
      var n := |versions| - 1;
      SortKeepsElements(versions[..n], f);
      var sorted := StableSort(versions[..n]);
      var i := Place(sorted, versions[n]);
      assert sorted == sorted[..i] + sorted[i..];
      assert versions == versions[..n] + [versions[n]];
    }
  }

  // Sorting moves versions only.
  lemma {:induction false} SortExclusive<T>(versions: seq<Fact<T>>)
    ensures Exclusive(StableSort(versions)) <==> Exclusive(versions)
  {
    hide Place, InsertAt, Apart;
    if versions != [] {
      var n := |versions| - 1;
      var shorter, last := versions[..n], versions[n];
      var sorted := StableSort(shorter);
      SortExclusive(shorter);
      InsertExclusive(sorted, Place(sorted, last), last);
      InsertExclusive(shorter, n, last);
      InsertLast(shorter, last);
      assert shorter + [last] == versions;
      forall f
        ensures f in sorted <==> f in shorter
      {
        SortKeepsElements(shorter, f);
      }
      AllApart(sorted, shorter, last);
    }
  }

  lemma InsertLast<T>(versions: seq<Fact<T>>, f: Fact<T>)
    ensures InsertAt(versions, |versions|, f) == versions + [f]
  {
  }

  lemma AllApart<T>(a: seq<Fact<T>>, b: seq<Fact<T>>, f: Fact<T>)
    requires forall version :: version in a <==> version in b
    ensures (forall i | 0 <= i < |a| :: Apart(a[i], f)) <==> (forall i | 0 <= i < |b| :: Apart(b[i], f))
  {
    hide Apart;
    forall i | 0 <= i < |a|
      ensures a[i] in b
    {
      assert a[i] in a;
    }
    forall i | 0 <= i < |b|
      ensures b[i] in a
    {
      assert b[i] in b;
    }
  }

  // An upsert keeps versions exclusive, in whatever order they are stored, exactly when the new fact
  // leaves room for those already known from its start on: only older versions are closed, never the
  // new one.
  lemma UpsertExclusiveExactly<T>(versions: seq<Fact<T>>, f: Fact<T>)
    requires Exclusive(versions) && WellTimed(versions) && ValidInterval(f.known) && f !in versions
    ensures Exclusive(Upsert(versions, f)) <==> Room(versions, f)
    ensures WellTimed(Upsert(versions, f))
  {
    hide StableSort, InsertAt, Close, Apart;
    var closed := CloseAll(versions, f);
    SortExclusive(closed + [f]);
    CloseExclusive(versions, f);
    InsertExclusive(closed, |closed|, f);
    InsertLast(closed, f);
    forall i | 0 <= i < |versions|
      ensures Apart(closed[i], f) <==>
                (versions[i].valid == f.valid && versions[i].known.start >= f.known.start ==>
                   f.known.end.Some? && f.known.end.value <= versions[i].known.start)
      ensures ValidInterval(closed[i].known)
    {
      ClosedIsApart(versions[i], f);
    }
    forall i | 0 <= i < |Upsert(versions, f)|
      ensures ValidInterval(Upsert(versions, f)[i].known)
    {
      assert Upsert(versions, f)[i] in Upsert(versions, f);
      SortKeepsElements(closed + [f], Upsert(versions, f)[i]);
    }
  }

  lemma UpsertDated<T>(versions: seq<Fact<T>>, f: Fact<T>)
    requires AllDated(versions) && Dated(f) && f !in versions
    ensures AllDated(Upsert(versions, f))
  {
    hide StableSort;
    forall i | 0 <= i < |Upsert(versions, f)|
      ensures Dated(Upsert(versions, f)[i])
    {
      assert Upsert(versions, f)[i] in Upsert(versions, f);
      SortKeepsElements(CloseAll(versions, f) + [f], Upsert(versions, f)[i]);
    }
  }

  // In terms of what is seen: where one version at most was visible at any time, that stays so exactly
  // when the new fact leaves room.
  lemma UpsertSeesOneExactly<T>(versions: seq<Fact<T>>, f: Fact<T>)
    requires SeesOne(versions) && AllDated(versions) && Dated(f) && f !in versions
    ensures SeesOne(Upsert(versions, f)) <==> Room(versions, f)
    ensures AllDated(Upsert(versions, f)) && Ordered(Upsert(versions, f))
  {
    hide StableSort, CloseAll, Apart, Visible, SeesOne, Exclusive, Ordered, Room;
    ExclusiveSeesOne(versions);
    UpsertExclusiveExactly(versions, f);
    UpsertDated(versions, f);
    SortOrders(CloseAll(versions, f) + [f]);
    ExclusiveSeesOne(Upsert(versions, f));
  }

  // Every fact of one identity, in the order of arrival.
  function UpsertAll<T(==)>(arrivals: seq<Fact<T>>): seq<Fact<T>> {
    if arrivals == [] then [] else Upsert(UpsertAll(arrivals[..|arrivals| - 1]), arrivals[|arrivals| - 1])
  }

  predicate Rising<T>(arrivals: seq<Fact<T>>) {
    forall i, j | 0 <= i < j < |arrivals| && arrivals[i].valid == arrivals[j].valid ::
      arrivals[i].known.start < arrivals[j].known.start
  }

  predicate SameStart<T>(a: Fact<T>, b: Fact<T>) { a.valid == b.valid && a.known.start == b.known.start }

  // Every version goes back to an arrival.
  ghost predicate Arrived<T>(versions: seq<Fact<T>>, arrivals: seq<Fact<T>>) {
    forall i | 0 <= i < |versions| :: FromOne(versions[i], arrivals)
  }

  ghost predicate FromOne<T>(version: Fact<T>, arrivals: seq<Fact<T>>) {
    exists j :: 0 <= j < |arrivals| && SameStart(version, arrivals[j])
  }

  lemma ArrivedGrows<T>(versions: seq<Fact<T>>, arrivals: seq<Fact<T>>, f: Fact<T>)
    requires Ordered(versions) && Arrived(versions, arrivals) && f !in versions
    ensures Arrived(Upsert(versions, f), arrivals + [f])
  {
    hide Upsert, Place;
    UpsertInserts(versions, f);
    var closed, after := CloseAll(versions, f), Upsert(versions, f);
    var place := Place(closed, f);
    forall i | 0 <= i < |after|
      ensures FromOne(after[i], arrivals + [f])
    {
      if i == place {
        assert SameStart(after[i], (arrivals + [f])[|arrivals|]);
      } else {
        var k := if i < place then i else i - 1;
        assert SameStart(after[i], versions[k]);
        assert FromOne(versions[k], arrivals);
        var j :| 0 <= j < |arrivals| && SameStart(versions[k], arrivals[j]);
        assert SameStart(after[i], (arrivals + [f])[j]);
      }
    }
  }

  // Facts about the same time arriving with ever later knowledge: never two of them known together.
  lemma {:induction false} RisingMeansOne<T>(arrivals: seq<Fact<T>>)
    requires Rising(arrivals) && WellTimed(arrivals)
    ensures var versions := UpsertAll(arrivals);
            Exclusive(versions) && Ordered(versions) && WellTimed(versions) && Arrived(versions, arrivals)
  {
    hide Upsert, Place, Apart;
    if arrivals != [] {
      var n := |arrivals| - 1;
      var before, f := UpsertAll(arrivals[..n]), arrivals[n];
      RisingMeansOne(arrivals[..n]);
      forall i | 0 <= i < |before| && before[i].valid == f.valid
        ensures before[i].known.start < f.known.start
      {
        assert FromOne(before[i], arrivals[..n]);
        var j :| 0 <= j < n && SameStart(before[i], arrivals[..n][j]);
        assert arrivals[..n][j] == arrivals[j];
      }
      assert f !in before;
      UpsertInserts(before, f);
      UpsertExclusiveExactly(before, f);
      ArrivedGrows(before, arrivals[..n], f);
      assert arrivals[..n] + [f] == arrivals;
    }
  }

  lemma RisingSeesOne<T>(arrivals: seq<Fact<T>>, i: nat, j: nat, validAt: i64, knownAt: i64)
    requires Rising(arrivals) && WellTimed(arrivals) && i < j < |UpsertAll(arrivals)|
    requires UpsertAll(arrivals)[i].valid == UpsertAll(arrivals)[j].valid
    ensures var versions := UpsertAll(arrivals);
            !(Visible(versions[i], validAt, knownAt) && Visible(versions[j], validAt, knownAt))
  {
    hide UpsertAll, Rising, WellTimed, Visible, Exclusive, Ordered, Arrived;
    RisingMeansOne(arrivals);
    ExclusiveMeansOne(UpsertAll(arrivals), i, j, validAt, knownAt);
  }

  const EARLY := Fact(2, Interval(0, None), Interval(3, None), Provenance("s", "a", 1.0))
  const LATE := Fact(1, Interval(0, None), Interval(5, None), Provenance("s", "a", 1.0))

  // Two facts about the same time, the older knowledge arriving last: from the later knowledge on both
  // are visible together.
  lemma LateArrivalOverlaps()
    ensures EARLY.valid == LATE.valid && EARLY.known.start < LATE.known.start
    ensures SeesOne(Upsert([], LATE))
    ensures Upsert(Upsert([], LATE), EARLY) == [EARLY, LATE]
    ensures forall knownAt: i64 | knownAt >= 5 :: Visible(EARLY, 0, knownAt) && Visible(LATE, 0, knownAt)
  {
    hide Upsert, Place, CloseAll, Ordered;
    FirstUpsert(LATE);
    SecondUpsert();
  }

  lemma FirstUpsert<T>(f: Fact<T>)
    ensures Upsert([], f) == [f] && Ordered([f]) && SeesOne([f])
  {
    hide Upsert;
    UpsertInserts([], f);
    assert CloseAll([], f) == [];
  }

  lemma SecondUpsert()
    ensures Upsert([LATE], EARLY) == [EARLY, LATE]
  {
    hide Upsert, InsertAt;
    UpsertInserts([LATE], EARLY);
    assert CloseAll([LATE], EARLY) == [LATE];
    assert [LATE][..0] == [];
    EarlyComesFirst();
  }

  lemma EarlyComesFirst()
    ensures InsertAt([LATE], 0, EARLY) == [EARLY, LATE]
  {
  }
}
