/** The dictionary repository: the paged speciality list, the top-level
    ICD-10 records, and the paged ICD-10 search. */
module DictionaryRepository {
  import opened Common
  import opened Entities
  import opened Paging
  import opened Ordering

  datatype SpecialityModel = SpecialityModel(id: Guid, createTime: DateTime, name: string)

  datatype SpecialtiesPagedList = SpecialtiesPagedList(specialties: seq<SpecialityModel>, pagination: PageInfo)

  datatype Icd10RecordModel = Icd10RecordModel(id: Guid, createTime: DateTime, code: Option<string>, name: Option<string>)

  datatype Icd10Search = Icd10Search(records: seq<Icd10RecordModel>, pagination: PageInfo)

  function ToSpecialityModel(s: SpecialityEntity): SpecialityModel {
    SpecialityModel(s.id, s.createTime, s.name)
  }

  function ToRecordModel(i: Icd10Entity): Icd10RecordModel {
    Icd10RecordModel(i.id, i.createTime, i.code, i.name)
  }

  // ---------------------------------------------------------------------
  // Specialities

  /** The specialities whose name contains `name`, ignoring case, in table
      order. */
  function MatchingSpecialities(t: seq<SpecialityEntity>, name: string): (r: seq<SpecialityEntity>)
    ensures forall s :: s in r <==> s in t && Contains(Lower(s.name), Lower(name))
  {
    Filter(t, (s: SpecialityEntity) => Contains(Lower(s.name), Lower(name)))
  }

  /** `GetSpecialities(name, page, size)`. */
  method GetSpecialities(t: seq<SpecialityEntity>, name: string, page: int, size: int)
    returns (r: SpecialtiesPagedList)
    requires page > 0 && size > 0
    ensures r.pagination == Pagination(|MatchingSpecialities(t, name)|, page, size)
    ensures r.specialties == MapSeq(Page(MatchingSpecialities(t, name), page, size), ToSpecialityModel)
    ensures |r.specialties| <= size
    ensures forall m :: m in r.specialties ==>
      exists s :: s in MatchingSpecialities(t, name) && m == ToSpecialityModel(s)
  {
    var matching := MatchingSpecialities(t, name);
    var pagination := Pagination(|matching|, page, size);
    var onPage := Page(matching, page, size);
    var models := ModelsOf(onPage, ToSpecialityModel);
    assert models == MapSeq(onPage, ToSpecialityModel);
    PageImage(matching, page, size, ToSpecialityModel);
    r := SpecialtiesPagedList(models, pagination);
  }

  // ---------------------------------------------------------------------
  // Roots

  predicate IsRoot(i: Icd10Entity) {
    i.icdParentId.None?
  }

  /** The sort key of `OrderBy(i => i.Code)`. */
  function CodeKey(i: Icd10Entity): Key {
    if i.code.Some? then Text(i.code.value) else Null
  }

  /** The parentless records ordered by code. */
  function Roots(icds: seq<Icd10Entity>): (r: seq<Icd10Entity>)
    ensures multiset(r) == multiset(Filter(icds, IsRoot))
    ensures SortedBy(r, CodeKey, true)
  {
    SortBySorted(Filter(icds, IsRoot), CodeKey, true);
    SortBy(Filter(icds, IsRoot), CodeKey, true)
  }

  /** Ordering by code keeps every parentless record, as often as the table
      holds it, and adds nothing. */
  lemma RootsMembers(icds: seq<Icd10Entity>)
    ensures |Roots(icds)| == CountIf(icds, IsRoot)
    ensures forall i :: i in Roots(icds) <==> i in icds && IsRoot(i)
  {
    var r := Roots(icds);
    assert |multiset(r)| == |multiset(Filter(icds, IsRoot))|;
    forall i ensures i in r <==> i in icds && IsRoot(i) {
      assert i in r <==> i in multiset(r);
      assert i in Filter(icds, IsRoot) <==> i in multiset(Filter(icds, IsRoot));
    }
  }

  /** The sort key of a returned record. */
  function RecordKey(x: Icd10RecordModel): Key {
    if x.code.Some? then Text(x.code.value) else Null
  }

  /** `GetRoots()`: every parentless record exactly as often as the table
      holds it and nothing else, ascending by code (null codes last), each
      copied field by field. */
  method GetRoots(icds: seq<Icd10Entity>) returns (r: seq<Icd10RecordModel>)
    ensures r == MapSeq(Roots(icds), ToRecordModel)
    ensures forall j, k :: 0 <= j < k < |r| ==> KeyLe(RecordKey(r[j]), RecordKey(r[k]))
  {
    var list := Roots(icds);
    var models: seq<Icd10RecordModel> := [];
    var k := 0;
    while k < |list|
      invariant 0 <= k <= |list| && |models| == k
      invariant forall j :: 0 <= j < k ==> models[j] == ToRecordModel(list[j])
    {
      models := models + [ToRecordModel(list[k])];
      k := k + 1;
    }
    forall j, m | 0 <= j < m < |models| ensures KeyLe(RecordKey(models[j]), RecordKey(models[m])) {
      assert Le(true, CodeKey(list[j]), CodeKey(list[m]));
      assert RecordKey(models[j]) == CodeKey(list[j]);
      assert RecordKey(models[m]) == CodeKey(list[m]);
    }
    r := models;
  }

  /** The records `GetRoots` returns are the parentless ones: each returned
      record is a copy of one, every one is copied, and there are as many
      records as parentless rows. */
  lemma GetRootsListsExactlyRoots(icds: seq<Icd10Entity>)
    ensures var r := MapSeq(Roots(icds), ToRecordModel);
      && |r| == CountIf(icds, IsRoot)
      && (forall k :: 0 <= k < |r| ==> Roots(icds)[k] in icds && IsRoot(Roots(icds)[k])
                                        && r[k] == ToRecordModel(Roots(icds)[k]))
      && (forall i :: i in icds && IsRoot(i) ==> ToRecordModel(i) in r)
  {
    RootsMembers(icds);
    var r := MapSeq(Roots(icds), ToRecordModel);
    forall i | i in icds && IsRoot(i) ensures ToRecordModel(i) in r {
      var j :| 0 <= j < |Roots(icds)| && Roots(icds)[j] == i;
      assert r[j] == ToRecordModel(i);
    }
  }

  // ---------------------------------------------------------------------
  // Search

  /** The filter of `SearchForDiagnoses`: when the request has the form of an
      ICD code (`requestIsCode`) the record's code must contain it, otherwise
      its name must, case-sensitively. A null column contains nothing. */
  predicate SearchHit(i: Icd10Entity, request: string, requestIsCode: bool) {
    if requestIsCode then i.code.Some? && Contains(i.code.value, request)
    else i.name.Some? && Contains(i.name.value, request)
  }

  function SearchHits(icds: seq<Icd10Entity>, request: string, requestIsCode: bool): (r: seq<Icd10Entity>)
    ensures forall i :: i in r <==> i in icds && SearchHit(i, request, requestIsCode)
  {
    Filter(icds, (i: Icd10Entity) => SearchHit(i, request, requestIsCode))
  }

  /** `SearchForDiagnoses(request, page, size)`. Whether `request` matches the
      ICD-code pattern is the parameter `requestIsCode`. */
  method SearchForDiagnoses(icds: seq<Icd10Entity>, request: string, requestIsCode: bool, page: int, size: int)
    returns (r: Icd10Search)
    requires page > 0 && size > 0
    ensures r.pagination == Pagination(|SearchHits(icds, request, requestIsCode)|, page, size)
    ensures r.records == MapSeq(Page(SearchHits(icds, request, requestIsCode), page, size), ToRecordModel)
    ensures |r.records| <= size
    ensures forall m :: m in r.records ==>
      exists i :: i in SearchHits(icds, request, requestIsCode) && m == ToRecordModel(i)
  {
    var hits := SearchHits(icds, request, requestIsCode);
    var pagination := Pagination(|hits|, page, size);
    var onPage := Page(hits, page, size);
    var models := ModelsOf(onPage, ToRecordModel);
    assert models == MapSeq(onPage, ToRecordModel);
    PageImage(hits, page, size, ToRecordModel);
    r := Icd10Search(models, pagination);
  }

  /** The empty request finds every record whose searched column is set. */
  lemma EmptyRequestFindsAll(icds: seq<Icd10Entity>, requestIsCode: bool)
    requires forall i :: i in icds ==> if requestIsCode then i.code.Some? else i.name.Some?
    ensures SearchHits(icds, "", requestIsCode) == icds
  {
    forall i | i in icds ensures SearchHit(i, "", requestIsCode) {
      if requestIsCode { ContainsEmpty(i.code.value); } else { ContainsEmpty(i.name.value); }
    }
    FilterAll(icds, (i: Icd10Entity) => SearchHit(i, "", requestIsCode));
  }
}
