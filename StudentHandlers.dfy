/**
 * The teacher lookup for a student: a Firestore query for the student by
 * name, then the resolution of its `teacherIDs` reference array into
 * teachers, skipping every element that cannot be resolved.
 */
module StudentHandlers {
  import opened Wrappers
  import opened Models
  import opened Errors
  import opened Http

  /** One element of the raw `teacherIDs` array: a document reference, or a value of any other type. */
  datatype Elem = Ref(ref: DocRef) | Other

  /** The `teacherIDs` field of a stored student, as `DataAt` and the type assertion see it. */
  datatype TeacherIDs = Absent | NotAList | List(elems: seq<Elem>)

  /** A stored student document. */
  datatype StudentDoc = StudentDoc(firstName: string, lastName: string, teacherIDs: TeacherIDs)

  /** What the query iterator's first `Next` gives: a document, `iterator.Done`, or a store error. */
  datatype QueryResult = Found(doc: StudentDoc) | Done | IterError(err: RpcError)

  predicate Matches(s: StudentDoc, firstName: string, lastName: string)
  {
    s.firstName == firstName && s.lastName == lastName
  }

  /** The position of the first student, in store order, whose names equal both query values. */
  function FirstMatch(students: seq<StudentDoc>, firstName: string, lastName: string): (r: Option<nat>)
    ensures r.Some? ==> r.value < |students| && Matches(students[r.value], firstName, lastName)
    ensures r.Some? ==> forall j :: 0 <= j < r.value ==> !Matches(students[j], firstName, lastName)
    ensures r.None? <==> forall j :: 0 <= j < |students| ==> !Matches(students[j], firstName, lastName)
  {
    if students == [] then None
    else if Matches(students[0], firstName, lastName) then Some(0)
    else
      match FirstMatch(students[1..], firstName, lastName)
      case None => None
      case Some(i) => Some(i + 1)
  }

  /**
   * The `students` collection queried on both names with `Limit(1)`: the
   * sequence order stands for the store's unspecified document order, and
   * `fault` for a failure of the query itself.
   */
  function Query(students: seq<StudentDoc>, fault: Option<RpcError>, firstName: string, lastName: string): (r: QueryResult)
    ensures fault.Some? <==> r.IterError?
    ensures fault.Some? ==> r.err == fault.value
    ensures r.Done? <==> fault.None? && forall j :: 0 <= j < |students| ==> !Matches(students[j], firstName, lastName)
    ensures r.Found? ==> r.doc in students && Matches(r.doc, firstName, lastName)
  {
    if fault.Some? then IterError(fault.value)
    else
      match FirstMatch(students, firstName, lastName)
      case None => Done
      case Some(i) => Found(students[i])
  }

  /**
   * The teacher one array element yields, if any: the element must be a
   * reference, `fetch` (the reference's `Get`) must succeed, and `decode`
   * (`DataTo`) must succeed.
   */
  function Lookup<D>(e: Elem, fetch: DocRef -> Option<D>, decode: D -> Option<Teacher>): Option<Teacher>
  {
    match e
    case Other => None
    case Ref(r) =>
      match fetch(r)
      case None => None
      case Some(doc) => decode(doc)
  }

  /** The teachers of a reference array: the successful lookups, in array order. */
  function Resolved<D>(refs: seq<Elem>, fetch: DocRef -> Option<D>, decode: D -> Option<Teacher>): (ts: seq<Teacher>)
    ensures |ts| <= |refs|
    decreases |refs|
  {
    if refs == [] then []
    else
      var init := Resolved(refs[..|refs| - 1], fetch, decode);
      match Lookup(refs[|refs| - 1], fetch, decode)
      case None => init
      case Some(t) => init + [t]
  }

  /** The positions of the array elements that yield a teacher, ascending. */
  function KeptIndices<D>(refs: seq<Elem>, fetch: DocRef -> Option<D>, decode: D -> Option<Teacher>): seq<nat>
    decreases |refs|
  {
    if refs == [] then []
    else
      var n := |refs| - 1;
      KeptIndices(refs[..n], fetch, decode) + if Lookup(refs[n], fetch, decode).Some? then [n] else []
  }

  /** The outcome of `fetchTeachersForStudent`. */
  function ResolveTeachers<D>(students: seq<StudentDoc>, fault: Option<RpcError>, firstName: string, lastName: string,
                              fetch: DocRef -> Option<D>, decode: D -> Option<Teacher>): (r: Result<seq<Teacher>, Error>)
    ensures fault.Some? ==> r == Err(Rpc(fault.value))
    ensures fault.None? && r.Err? ==> r.error == StudentNotFound || r.error == MissingTeacherIDs || r.error == InvalidTeacherIDs
  {
    match Query(students, fault, firstName, lastName)
    case IterError(e) => Err(Rpc(e))
    case Done => Err(StudentNotFound)
    case Found(s) =>
      match s.teacherIDs
      case Absent => Err(MissingTeacherIDs)
      case NotAList => Err(InvalidTeacherIDs)
      case List(refs) => Ok(Resolved(refs, fetch, decode))
  }

  /** `fetchTeachersForStudent`: the query, the two field checks, then the skip loop. */
  method FetchTeachersForStudent<D>(students: seq<StudentDoc>, fault: Option<RpcError>, firstName: string, lastName: string,
                                    fetch: DocRef -> Option<D>, decode: D -> Option<Teacher>)
    returns (r: Result<seq<Teacher>, Error>)
    ensures r == ResolveTeachers(students, fault, firstName, lastName, fetch, decode)
  {
    var next := Query(students, fault, firstName, lastName);
    if next.IterError? {
      return Err(Rpc(next.err));
    }
    if next.Done? {
      return Err(StudentNotFound);
    }
    var rawRefs := next.doc.teacherIDs;
    if rawRefs.Absent? {
      return Err(MissingTeacherIDs);
    }
    if rawRefs.NotAList? {
      return Err(InvalidTeacherIDs);
    }
    var refList := rawRefs.elems;
    var teachers: seq<Teacher> := [];
    for i := 0 to |refList|
      invariant teachers == Resolved(refList[..i], fetch, decode)
    {
      assert refList[..i + 1][..i] == refList[..i];
      var r := refList[i];
      if !r.Ref? {
        continue;
      }
      var tDoc := fetch(r.ref);
      if tDoc.None? {
        continue;
      }
      var t := decode(tDoc.value);
      if t.None? {
        continue;
      }
      teachers := teachers + [t.value];
    }
    assert refList[..|refList|] == refList;
    return Ok(teachers);
  }

  /** The production resolver over a given store, as the handler sees it. */
  function Resolver<D>(students: seq<StudentDoc>, fault: Option<RpcError>,
                       fetch: DocRef -> Option<D>, decode: D -> Option<Teacher>): (string, string) -> Result<seq<Teacher>, Error>
  {
    (firstName, lastName) => ResolveTeachers(students, fault, firstName, lastName, fetch, decode)
  }

  /** The response for an error from the resolver. */
  function ErrorResponse(e: Error): Response
  {
    match e
    case StudentNotFound => Response(StatusNotFound, ErrorJson("student not found"))
    case MissingTeacherIDs => Response(StatusInternalServerError, ErrorJson("missing teacherIDs field"))
    case InvalidTeacherIDs => Response(StatusInternalServerError, ErrorJson("teacherIDs field is not an array of references"))
    case _ => Response(StatusInternalServerError, ErrorJson(Message(e)))
  }

  /**
   * `GetTeachersForStudentHandler` for the query parameters `firstName` and
   * `lastName` (empty when absent). `resolve` stands for the package-level
   * `fetchTeachersForStudent`, which tests replace.
   */
  function GetTeachersForStudentHandler(firstName: string, lastName: string,
                                        resolve: (string, string) -> Result<seq<Teacher>, Error>): (resp: Response)
    ensures resp.status == StatusBadRequest <==> firstName == "" || lastName == ""
    ensures resp.status == StatusOK <==> resp.body.TeacherList?
    ensures resp.status in {StatusOK, StatusBadRequest, StatusNotFound, StatusInternalServerError}
  {
    if firstName == "" || lastName == "" then
      Response(StatusBadRequest, ErrorJson("firstName and lastName query parameters required"))
    else
      match resolve(firstName, lastName)
      case Err(e) => ErrorResponse(e)
      case Ok(teachers) => Response(StatusOK, TeacherList(teachers))
  }

  // ---------------------------------------------------------------------
  // The skip loop: what the resolved list is

  /** Resolution distributes over concatenation of reference arrays. */
  lemma {:induction false} ResolvedConcat<D>(a: seq<Elem>, b: seq<Elem>, fetch: DocRef -> Option<D>, decode: D -> Option<Teacher>)
    ensures Resolved(a + b, fetch, decode) == Resolved(a, fetch, decode) + Resolved(b, fetch, decode)
    decreases |b|
  {
    if b == [] {
      assert a + b == a;
    } else {
      var n := |b| - 1;
      ResolvedConcat(a, b[..n], fetch, decode);
      assert (a + b)[..|a + b| - 1] == a + b[..n];
      assert (a + b)[|a + b| - 1] == b[n];
    }
  }

  /**
   * Each element contributes on its own: an element that is not a reference,
   * whose fetch fails or whose decode fails adds nothing, and any other adds
   * its teacher, whatever comes before or after it.
   */
  lemma ElementIsIndependent<D>(a: seq<Elem>, e: Elem, b: seq<Elem>, fetch: DocRef -> Option<D>, decode: D -> Option<Teacher>)
    ensures e.Other? ==> Resolved(a + [e] + b, fetch, decode) == Resolved(a + b, fetch, decode)
    ensures e.Ref? && fetch(e.ref).None? ==> Resolved(a + [e] + b, fetch, decode) == Resolved(a + b, fetch, decode)
    ensures e.Ref? && fetch(e.ref).Some? && decode(fetch(e.ref).value).None? ==>
              Resolved(a + [e] + b, fetch, decode) == Resolved(a + b, fetch, decode)
    ensures Lookup(e, fetch, decode).Some? ==>
              Resolved(a + [e] + b, fetch, decode) ==
              Resolved(a, fetch, decode) + [Lookup(e, fetch, decode).value] + Resolved(b, fetch, decode)
  {
    ResolvedConcat(a + [e], b, fetch, decode);
    ResolvedConcat(a, [e], fetch, decode);
    ResolvedConcat(a, b, fetch, decode);
    assert [e][..0] == [];
  }

  /** The kept positions are positions of the array, in ascending order. */
  lemma {:induction false} KeptIndicesAscend<D>(refs: seq<Elem>, fetch: DocRef -> Option<D>, decode: D -> Option<Teacher>)
    ensures forall k :: 0 <= k < |KeptIndices(refs, fetch, decode)| ==> KeptIndices(refs, fetch, decode)[k] < |refs|
    ensures forall k, m :: 0 <= k < m < |KeptIndices(refs, fetch, decode)| ==>
              KeptIndices(refs, fetch, decode)[k] < KeptIndices(refs, fetch, decode)[m]
    decreases |refs|
  {
    if refs != [] {
      var n := |refs| - 1;
      KeptIndicesAscend(refs[..n], fetch, decode);
      var idx0, idx := KeptIndices(refs[..n], fetch, decode), KeptIndices(refs, fetch, decode);
      assert |refs[..n]| == n;
      if Lookup(refs[n], fetch, decode).Some? {
        assert idx == idx0 + [n];
      } else {
        assert idx == idx0;
        assert forall k :: 0 <= k < |idx| ==> idx[k] == idx0[k] && idx0[k] < n;
      }
    }
  }

  /** A position is kept exactly when its element yields a teacher. */
  lemma {:induction false} KeptIndicesExact<D>(refs: seq<Elem>, fetch: DocRef -> Option<D>, decode: D -> Option<Teacher>)
    ensures forall i :: 0 <= i < |refs| ==> (Lookup(refs[i], fetch, decode).Some? <==> i in KeptIndices(refs, fetch, decode))
    decreases |refs|
  {
    if refs != [] {
      var n := |refs| - 1;
      KeptIndicesExact(refs[..n], fetch, decode);
      KeptIndicesAscend(refs[..n], fetch, decode);
      assert forall i :: 0 <= i < n ==> refs[i] == refs[..n][i];
      assert n !in KeptIndices(refs[..n], fetch, decode);
    }
  }

  /** The k-th resolved teacher is the one the k-th kept position yields. */
  lemma {:induction false} KeptIndicesYield<D>(refs: seq<Elem>, fetch: DocRef -> Option<D>, decode: D -> Option<Teacher>)
    ensures |KeptIndices(refs, fetch, decode)| == |Resolved(refs, fetch, decode)|
    ensures forall k :: 0 <= k < |KeptIndices(refs, fetch, decode)| ==>
              KeptIndices(refs, fetch, decode)[k] < |refs| &&
              Lookup(refs[KeptIndices(refs, fetch, decode)[k]], fetch, decode) == Some(Resolved(refs, fetch, decode)[k])
    decreases |refs|
  {
    if refs != [] {
      var n := |refs| - 1;
      var init := refs[..n];
      KeptIndicesYield(init, fetch, decode);
      var idx0, ts0 := KeptIndices(init, fetch, decode), Resolved(init, fetch, decode);
      var idx, ts := KeptIndices(refs, fetch, decode), Resolved(refs, fetch, decode);
      assert forall k :: 0 <= k < |idx0| ==> refs[idx0[k]] == init[idx0[k]];
      if Lookup(refs[n], fetch, decode).Some? {
        assert idx == idx0 + [n] && ts == ts0 + [Lookup(refs[n], fetch, decode).value];
        assert forall k :: 0 <= k < |idx0| ==> idx[k] == idx0[k] && ts[k] == ts0[k];
      } else {
        assert idx == idx0 && ts == ts0;
      }
    }
  }

  /**
   * The resolved list is exactly the teachers of the kept elements, in array
   * order: the kept positions ascend, each yields its teacher, and a position
   * is kept if and only if its element yields one.
   */
  lemma ResolvedAreKeptImages<D>(refs: seq<Elem>, fetch: DocRef -> Option<D>, decode: D -> Option<Teacher>)
    ensures var idx, ts := KeptIndices(refs, fetch, decode), Resolved(refs, fetch, decode);
      && |idx| == |ts|
      && (forall k :: 0 <= k < |idx| ==> idx[k] < |refs| && Lookup(refs[idx[k]], fetch, decode) == Some(ts[k]))
      && (forall k, m :: 0 <= k < m < |idx| ==> idx[k] < idx[m])
      && (forall i :: 0 <= i < |refs| ==> (Lookup(refs[i], fetch, decode).Some? <==> i in idx))
  {
    KeptIndicesYield(refs, fetch, decode);
    KeptIndicesAscend(refs, fetch, decode);
    KeptIndicesExact(refs, fetch, decode);
  }

  /** A teacher is in the result exactly when some element of the array yields it. */
  lemma ResolvedMembership<D>(refs: seq<Elem>, fetch: DocRef -> Option<D>, decode: D -> Option<Teacher>, t: Teacher)
    ensures t in Resolved(refs, fetch, decode) <==> exists i :: 0 <= i < |refs| && Lookup(refs[i], fetch, decode) == Some(t)
  {
    ResolvedAreKeptImages(refs, fetch, decode);
    var idx, ts := KeptIndices(refs, fetch, decode), Resolved(refs, fetch, decode);
    if t in ts {
      var k :| 0 <= k < |ts| && ts[k] == t;
      assert Lookup(refs[idx[k]], fetch, decode) == Some(t);
    }
    if exists i :: 0 <= i < |refs| && Lookup(refs[i], fetch, decode) == Some(t) {
      var i :| 0 <= i < |refs| && Lookup(refs[i], fetch, decode) == Some(t);
      assert i in idx;
      var k :| 0 <= k < |idx| && idx[k] == i;
      assert ts[k] == t;
    }
  }

  /** The result is empty exactly when no element yields a teacher; that is not an error. */
  lemma {:induction false} EmptyIffAllSkipped<D>(refs: seq<Elem>, fetch: DocRef -> Option<D>, decode: D -> Option<Teacher>)
    ensures Resolved(refs, fetch, decode) == [] <==> forall i :: 0 <= i < |refs| ==> Lookup(refs[i], fetch, decode).None?
    decreases |refs|
  {
    if refs != [] {
      var n := |refs| - 1;
      EmptyIffAllSkipped(refs[..n], fetch, decode);
      assert forall i :: 0 <= i < n ==> refs[i] == refs[..n][i];
    }
  }

  /** The result is as long as the array exactly when every element yields a teacher. */
  lemma {:induction false} FullIffNoneSkipped<D>(refs: seq<Elem>, fetch: DocRef -> Option<D>, decode: D -> Option<Teacher>)
    ensures |Resolved(refs, fetch, decode)| == |refs| <==> forall i :: 0 <= i < |refs| ==> Lookup(refs[i], fetch, decode).Some?
    decreases |refs|
  {
    if refs != [] {
      var n := |refs| - 1;
      FullIffNoneSkipped(refs[..n], fetch, decode);
      assert forall i :: 0 <= i < n ==> refs[i] == refs[..n][i];
    }
  }

  /** Three references whose middle one dangles resolve to the other two teachers, in order. */
  lemma OneDanglingOfThree<D>(r1: DocRef, r2: DocRef, r3: DocRef, t1: Teacher, t3: Teacher,
                              fetch: DocRef -> Option<D>, decode: D -> Option<Teacher>)
    requires Lookup(Ref(r1), fetch, decode) == Some(t1)
    requires fetch(r2).None?
    requires Lookup(Ref(r3), fetch, decode) == Some(t3)
    ensures Resolved([Ref(r1), Ref(r2), Ref(r3)], fetch, decode) == [t1, t3]
  {
    var refs := [Ref(r1), Ref(r2), Ref(r3)];
    assert refs[..2][..1] == [Ref(r1)] && [Ref(r1)][..0] == [];
    assert Resolved([Ref(r1)], fetch, decode) == [t1];
    assert Resolved(refs[..2], fetch, decode) == [t1];
  }

  // ---------------------------------------------------------------------
  // fetchTeachersForStudent: which outcome wins

  /** With a working query, the student is reported missing exactly when no stored student has both names. */
  lemma NotFoundIffNoMatch<D>(students: seq<StudentDoc>, firstName: string, lastName: string,
                              fetch: DocRef -> Option<D>, decode: D -> Option<Teacher>)
    ensures ResolveTeachers(students, None, firstName, lastName, fetch, decode) == Err(StudentNotFound)
            <==> forall j :: 0 <= j < |students| ==> !Matches(students[j], firstName, lastName)
  {
  }

  /**
   * The outcomes in the order they are checked: a query failure is passed on
   * unchanged; then a missing student; then, for the first matching student,
   * a missing field, then a field that is not a list; only then a list of
   * teachers, which is never an error.
   */
  lemma ErrorPrecedence<D>(students: seq<StudentDoc>, fault: Option<RpcError>, firstName: string, lastName: string,
                           fetch: DocRef -> Option<D>, decode: D -> Option<Teacher>)
    ensures var r := ResolveTeachers(students, fault, firstName, lastName, fetch, decode);
      && (fault.Some? ==> r == Err(Rpc(fault.value)))
      && (r == Err(StudentNotFound) ==> fault.None? && forall j :: 0 <= j < |students| ==> !Matches(students[j], firstName, lastName))
      && (r == Err(MissingTeacherIDs) ==>
            fault.None? && exists j :: 0 <= j < |students| && Matches(students[j], firstName, lastName) && students[j].teacherIDs.Absent?)
      && (r == Err(InvalidTeacherIDs) ==>
            fault.None? && exists j :: 0 <= j < |students| && Matches(students[j], firstName, lastName) && students[j].teacherIDs.NotAList?)
      && (r.Ok? ==>
            fault.None? && exists j :: 0 <= j < |students| && Matches(students[j], firstName, lastName) && students[j].teacherIDs.List?
                                        && r.value == Resolved(students[j].teacherIDs.elems, fetch, decode))
  {
  }

  /**
   * With a working query and at least one student of that name, the
   * `teacherIDs` field decides the outcome: a list gives success, a missing
   * field `ErrMissingTeacherIDs`, any other value `ErrInvalidTeacherIDs`, and
   * a list none of whose elements resolves gives an empty success. Stated
   * over every matching student, so it holds whichever one the store returns.
   */
  lemma FieldDecidesOutcome<D>(students: seq<StudentDoc>, firstName: string, lastName: string,
                               fetch: DocRef -> Option<D>, decode: D -> Option<Teacher>)
    requires exists j :: 0 <= j < |students| && Matches(students[j], firstName, lastName)
    ensures var r := ResolveTeachers(students, None, firstName, lastName, fetch, decode);
      && (r.Err? ==> r.error == MissingTeacherIDs || r.error == InvalidTeacherIDs)
      && ((forall j :: 0 <= j < |students| && Matches(students[j], firstName, lastName) ==> students[j].teacherIDs.List?)
            ==> r.Ok?)
      && ((forall j :: 0 <= j < |students| && Matches(students[j], firstName, lastName) ==> students[j].teacherIDs.Absent?)
            ==> r == Err(MissingTeacherIDs))
      && ((forall j :: 0 <= j < |students| && Matches(students[j], firstName, lastName) ==> students[j].teacherIDs.NotAList?)
            ==> r == Err(InvalidTeacherIDs))
      && ((forall j :: 0 <= j < |students| && Matches(students[j], firstName, lastName) ==>
             students[j].teacherIDs.List? && forall i :: 0 <= i < |students[j].teacherIDs.elems| ==>
               Lookup(students[j].teacherIDs.elems[i], fetch, decode).None?)
            ==> r == Ok([]))
  {
    var k := FirstMatch(students, firstName, lastName).value;
    if students[k].teacherIDs.List? {
      EmptyIffAllSkipped(students[k].teacherIDs.elems, fetch, decode);
    }
  }

  /**
   * Per-element failures never become an error: whether the call succeeds,
   * and which error it reports, does not depend on the teacher documents.
   */
  lemma OutcomeIgnoresTeacherStore<D, E>(students: seq<StudentDoc>, fault: Option<RpcError>, firstName: string, lastName: string,
                                         fetch1: DocRef -> Option<D>, decode1: D -> Option<Teacher>,
                                         fetch2: DocRef -> Option<E>, decode2: E -> Option<Teacher>)
    ensures var r1, r2 := ResolveTeachers(students, fault, firstName, lastName, fetch1, decode1),
                          ResolveTeachers(students, fault, firstName, lastName, fetch2, decode2);
      r1.Ok? == r2.Ok? && (r1.Err? ==> r1 == r2)
  {
  }

  // ---------------------------------------------------------------------
  // GetTeachersForStudentHandler

  /** A missing name is rejected with 400 whatever the resolver would do: it is never consulted. */
  lemma MissingParamsRejected(firstName: string, lastName: string,
                              resolve1: (string, string) -> Result<seq<Teacher>, Error>,
                              resolve2: (string, string) -> Result<seq<Teacher>, Error>)
    requires firstName == "" || lastName == ""
    ensures GetTeachersForStudentHandler(firstName, lastName, resolve1) == GetTeachersForStudentHandler(firstName, lastName, resolve2)
    ensures GetTeachersForStudentHandler(firstName, lastName, resolve1).status == StatusBadRequest
  {
  }

  /**
   * With both names given: 200 with exactly the resolved teachers on success,
   * 404 exactly for a missing student, 500 for every other error, and every
   * error body is that error's message.
   */
  lemma StatusMapping(firstName: string, lastName: string, resolve: (string, string) -> Result<seq<Teacher>, Error>)
    requires firstName != "" && lastName != ""
    ensures var resp, out := GetTeachersForStudentHandler(firstName, lastName, resolve), resolve(firstName, lastName);
      && (resp.status == StatusOK <==> out.Ok?)
      && (resp.status == StatusNotFound <==> out == Err(StudentNotFound))
      && (resp.status == StatusInternalServerError <==> out.Err? && out.error != StudentNotFound)
      && (out.Ok? ==> resp.body == TeacherList(out.value))
      && (out.Err? ==> resp.body == ErrorJson(Message(out.error)))
  {
  }

  /**
   * Over a working store, a student of that name whose field is a list gets
   * 200 with the resolved teachers, an empty list when none resolves.
   */
  lemma HandlerListsTeachers<D>(students: seq<StudentDoc>, firstName: string, lastName: string,
                                fetch: DocRef -> Option<D>, decode: D -> Option<Teacher>, j: nat)
    requires firstName != "" && lastName != ""
    requires j < |students| && Matches(students[j], firstName, lastName) && students[j].teacherIDs.List?
    requires forall k :: 0 <= k < |students| && Matches(students[k], firstName, lastName) ==> students[k] == students[j]
    ensures var resp := GetTeachersForStudentHandler(firstName, lastName, Resolver(students, None, fetch, decode));
      && resp.status == StatusOK
      && resp.body == TeacherList(Resolved(students[j].teacherIDs.elems, fetch, decode))
      && ((forall i :: 0 <= i < |students[j].teacherIDs.elems| ==> Lookup(students[j].teacherIDs.elems[i], fetch, decode).None?)
            ==> resp.body == TeacherList([]))
  {
    EmptyIffAllSkipped(students[j].teacherIDs.elems, fetch, decode);
  }

  /** Over a working store, the handler answers 404 exactly when no student has both names. */
  lemma HandlerNotFoundIffNoStudent<D>(students: seq<StudentDoc>, firstName: string, lastName: string,
                                       fetch: DocRef -> Option<D>, decode: D -> Option<Teacher>)
    requires firstName != "" && lastName != ""
    ensures GetTeachersForStudentHandler(firstName, lastName, Resolver(students, None, fetch, decode)).status == StatusNotFound
            <==> forall j :: 0 <= j < |students| ==> !Matches(students[j], firstName, lastName)
  {
  }
}
