/**
 * The list screen's client-side search (`aplicarFiltro` in
 * src/components/UserList.js): with an empty search term every record is
 * visible; otherwise a record is visible when the lower-cased text of the
 * selected field contains the lower-cased term.  Order is kept.
 */
module FilterEngine {
  import opened Common
  import opened Text

  /** `String(usuario[filtro])`: the text of the selected field of `u`. */
  function FieldText(u: Record, f: Field): string
  {
    match f
    case Nombre => u.nombre
    case Correo => u.correo
    case Edad => IntToString(u.edad)
  }

  /** The per-record test of the filter callback. */
  predicate Matches(u: Record, f: Field, term: string)
  {
    Contains(Lower(FieldText(u, f)), Lower(term))
  }

  /**
   * The records `aplicarFiltro` leaves visible.  An empty term is the
   * identity; otherwise exactly the matching records stay, in their order.
   */
  function Apply(usuarios: seq<Record>, f: Field, term: string): (r: seq<Record>)
    ensures term == [] ==> r == usuarios
    ensures term != [] ==> forall u :: u in r <==> u in usuarios && Matches(u, f, term)
    ensures |r| <= |usuarios|
  {
    if term == [] then usuarios else Keep(usuarios, f, term)
  }

  /** `usuarios.filter(...)` with the matching callback. */
  function Keep(usuarios: seq<Record>, f: Field, term: string): (r: seq<Record>)
    ensures forall u :: u in r <==> u in usuarios && Matches(u, f, term)
    ensures |r| <= |usuarios|
    decreases |usuarios|
  {
    if usuarios == [] then []
    else
      var rest := Keep(usuarios[1..], f, term);
      assert forall u :: u in usuarios <==> u == usuarios[0] || u in usuarios[1..];
      if Matches(usuarios[0], f, term) then [usuarios[0]] + rest else rest
  }

  /** The records the filter hides: exactly the non-matching ones. */
  function Reject(usuarios: seq<Record>, f: Field, term: string): (r: seq<Record>)
    ensures forall u :: u in r <==> u in usuarios && !Matches(u, f, term)
    decreases |usuarios|
  {
    if usuarios == [] then []
    else
      var rest := Reject(usuarios[1..], f, term);
      assert forall u :: u in usuarios <==> u == usuarios[0] || u in usuarios[1..];
      if Matches(usuarios[0], f, term) then rest else [usuarios[0]] + rest
  }

  /** `a` is `b` with some elements removed and the rest kept in their order. */
  predicate IsSubsequence<T(==)>(a: seq<T>, b: seq<T>)
    decreases |b|
  {
    || a == []
    || (&& b != []
        && ((a[0] == b[0] && IsSubsequence(a[1..], b[1..])) || IsSubsequence(a, b[1..])))
  }

  lemma {:induction false} SubsequenceReflexive<T>(a: seq<T>)
    ensures IsSubsequence(a, a)
    decreases |a|
  {
    if a != [] {
      SubsequenceReflexive(a[1..]);
    }
  }

  /** The visible list is an order-preserving selection of the records. */
  lemma {:induction false} KeepIsSubsequence(usuarios: seq<Record>, f: Field, term: string)
    ensures IsSubsequence(Keep(usuarios, f, term), usuarios)
    decreases |usuarios|
  {
    if usuarios != [] {
      KeepIsSubsequence(usuarios[1..], f, term);
      var rest := Keep(usuarios[1..], f, term);
      if Matches(usuarios[0], f, term) {
        assert ([usuarios[0]] + rest)[1..] == rest;
      }
    }
  }

  /** Filtering keeps the records' relative order: the result is a subsequence. */
  lemma ApplyIsSubsequence(usuarios: seq<Record>, f: Field, term: string)
    ensures IsSubsequence(Apply(usuarios, f, term), usuarios)
  {
    if term == [] {
      SubsequenceReflexive(usuarios);
    } else {
      KeepIsSubsequence(usuarios, f, term);
    }
  }

  /** The visible and hidden records together are the records, counted with multiplicity. */
  lemma {:induction false} KeepRejectPartition(usuarios: seq<Record>, f: Field, term: string)
    ensures multiset(Keep(usuarios, f, term)) + multiset(Reject(usuarios, f, term)) == multiset(usuarios)
    decreases |usuarios|
  {
    if usuarios != [] {
      KeepRejectPartition(usuarios[1..], f, term);
      assert usuarios == [usuarios[0]] + usuarios[1..];
    }
  }

  /** A list whose every record matches passes the filter unchanged. */
  lemma {:induction false} KeepAllMatching(usuarios: seq<Record>, f: Field, term: string)
    requires forall i :: 0 <= i < |usuarios| ==> Matches(usuarios[i], f, term)
    ensures Keep(usuarios, f, term) == usuarios
    decreases |usuarios|
  {
    if usuarios != [] {
      KeepAllMatching(usuarios[1..], f, term);
      assert [usuarios[0]] + usuarios[1..] == usuarios;
    }
  }

  /** Filtering the filtered list again with the same field and term changes nothing. */
  lemma ApplyIdempotent(usuarios: seq<Record>, f: Field, term: string)
    ensures Apply(Apply(usuarios, f, term), f, term) == Apply(usuarios, f, term)
  {
    if term != [] {
      var once := Apply(usuarios, f, term);
      assert forall i :: 0 <= i < |once| ==> once[i] in once;
      KeepAllMatching(once, f, term);
    }
  }

  /**
   * Two records, filter field `edad`, term "30": only the thirty-year-old
   * stays visible.
   */
  lemma AgeScenario()
    ensures Apply([Record(1, "a@x.com", "Ana", 30), Record(2, "b@x.com", "Bob", 25)], Edad, "30")
         == [Record(1, "a@x.com", "Ana", 30)]
  {
    var ana := Record(1, "a@x.com", "Ana", 30);
    var bob := Record(2, "b@x.com", "Bob", 25);
    assert FieldText(ana, Edad) == "30";
    assert FieldText(bob, Edad) == "25";
    assert Lower("30") == "30";
    assert Lower("25") == "25";
    assert Contains("30", "30");
    assert !Contains("25", "30") by {
      assert !OccursAt("25", "30", 0);
    }
    assert Keep([bob], Edad, "30") == [];
  }
}
