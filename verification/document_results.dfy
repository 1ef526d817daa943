/**
 * What each kind of document gives an application: the sections it fills or refines, those it leaves as
 * they are, and when mapping it raises.
 */
module DocumentResults {
  import opened Wrappers
  import opened Extraction

  /** Result i is a successful one of this type, with this data. */
  predicate Says(results: seq<ExtractionResult>, types: seq<DocType>, i: nat, t: DocType, data: Fields) {
    i < |results| && i < |types| && results[i].success && results[i].data == Some(data) && types[i] == t
  }

  /** The application once result i has been mapped and spread over it; None when mapping raises. */
  function Then(h: Host, results: seq<ExtractionResult>, types: seq<DocType>, i: nat, app: App): Option<App> {
    var update := Contribution(h, results, types, i, app);
    if update.None? then None else Some(app + update.value)
  }

  /** The sequence of updates that the whole fold amounts to takes these steps, one result after another. */
  lemma SequenceTakesSteps(h: Host, results: seq<ExtractionResult>, types: seq<DocType>, app: App, n: nat)
    ensures var f := ContributionsOf(h, results, types);
            && Sequential(f, app, 0) == Some(app)
            && Sequential(f, app, n + 1) == (match Sequential(f, app, n)
                                             case None => None
                                             case Some(current) => Then(h, results, types, n, current))
  {
  }

  /** A failed or empty result changes nothing; one without a document type raises. */
  lemma SkippedResults(h: Host, results: seq<ExtractionResult>, types: seq<DocType>, app: App, i: nat)
    requires i < |results|
    ensures !results[i].success || results[i].data.None? ==> Then(h, results, types, i, app) == Some(app)
    ensures results[i].success && results[i].data.Some? && i >= |types| ==> Then(h, results, types, i, app).None?
  {
    assert app + map[] == app;
  }

  lemma SpreadItems(app: App, update: App, k: Section)
    ensures ItemsOf(app + update, k) == if k in update then ItemsOf(update, k) else ItemsOf(app, k)
    ensures FieldsOf(app + update, k) == if k in update then FieldsOf(update, k) else FieldsOf(app, k)
  {
  }

  // ---- names ----

  function OrEmpty(v: Js): Js {
    if Truthy(v) then v else Str("")
  }

  function Words(h: Host, v: Js): seq<string> {
    if !Truthy(v) then [] else match v
      case Str(s) => [s]
      case _ => [h.text(v)]
  }

  function Spaced(words: seq<string>): string {
    if words == [] then "" else if |words| == 1 then words[0] else words[0] + " " + Spaced(words[1..])
  }

  /** The full name a document states, or else its first and last name, as far as it has them. */
  lemma FullNameMeans(h: Host, personal: Js)
    ensures var stated := OptionalProp(personal, "full_name");
            FullName(h, personal) ==
              if Truthy(stated) then stated
              else Str(Spaced(Words(h, OptionalProp(personal, "first_name"))
                              + Words(h, OptionalProp(personal, "last_name"))))
  {
    var first, last := Words(h, OptionalProp(personal, "first_name")), Words(h, OptionalProp(personal, "last_name"));
    assert |first + last| == 2 ==> first + last == [first[0], last[0]] && (first + last)[1..] == [last[0]];
    assert first == [] ==> first + last == last;
    assert last == [] ==> first + last == first;
  }

  /** The j-th director is the first of this name. */
  ghost predicate FirstOfName(h: Host, ds: seq<Js>, name: Js, j: nat)
    requires j < |ds|
  {
    NamedLike(h, ds[j], name) && PassedOver(h, ds, name, j)
  }

  ghost predicate Known(h: Host, ds: seq<Js>, name: Js) {
    exists j :: 0 <= j < |ds| && FirstOfName(h, ds, name, j)
  }

  /** Looking for the name comes upon something that is no text. */
  ghost predicate SearchFails(h: Host, ds: seq<Js>, name: Js) {
    ds != [] && (!name.Str? || exists j :: 0 <= j < |ds| && Stumbles(h, ds, name, j))
  }

  lemma SearchDecides(h: Host, ds: seq<Js>, name: Js)
    ensures FindDirector(h, ds, name).SearchRaises? <==> SearchFails(h, ds, name)
    ensures FindDirector(h, ds, name).Found? <==> Known(h, ds, name)
    ensures forall j :: 0 <= j < |ds| && FirstOfName(h, ds, name, j) ==> FindDirector(h, ds, name) == Found(ds[j])
  {
    FindDirectorFinds(h, ds, name);
    match FindDirector(h, ds, name)
    case Found(d) =>
      var i :| 0 <= i < |ds| && ds[i] == d && PassedOver(h, ds, name, i);
      assert FirstOfName(h, ds, name, i);
    case NotFound =>
    case SearchRaises =>
  }

  // ---- when mapping raises ----

  /** The director in the document can be read. */
  predicate Readable(d: Js) {
    !Nullish(d) && (Nullish(OptionalProp(d, "role")) || OptionalProp(d, "role").Str?)
  }

  lemma {:induction false} DirectorsRaise(h: Host, i: nat, ds: seq<Js>)
    ensures DirectorsFrom(h, i, ds).None? <==> exists j :: 0 <= j < |ds| && !Readable(ds[j])
  {
    if ds != [] {
      DirectorsRaise(h, i, ds[..|ds| - 1]);
    }
  }

  lemma {:induction false} OwnersRaise(h: Host, i: nat, ss: seq<Js>)
    ensures OwnersFrom(h, i, ss).None? <==> exists j :: 0 <= j < |ss| && Nullish(ss[j])
  {
    if ss != [] {
      OwnersRaise(h, i, ss[..|ss| - 1]);
    }
  }

  /** The document lists something under this name. */
  predicate Lists(data: Fields, name: string) {
    NonEmpty(Get(data, name))
  }

  predicate DirectorsUnreadable(data: Fields) {
    match Get(data, "directors")
    case Arr(ds) => exists j :: 0 <= j < |ds| && !Readable(ds[j])
    case _ => true
  }

  predicate OwnersUnreadable(data: Fields) {
    match Get(data, "shareholders")
    case Arr(ss) => exists j :: 0 <= j < |ss| && Nullish(ss[j])
    case _ => true
  }

  function PersonName(h: Host, data: Fields): Js {
    FullName(h, Get(data, "personal_info"))
  }

  /** When mapping a document of this type raises. */
  ghost predicate Raises(h: Host, t: DocType, data: Fields, app: App) {
    match t
    case Memorandum =>
      || (Lists(data, "directors") && ItemsOf(app, Directors) == [] && DirectorsUnreadable(data))
      || (Lists(data, "shareholders") && ItemsOf(app, Ubos) == [] && OwnersUnreadable(data))
      || (Lists(data, "business_activities")
          && !Get(data, "business_activities").Arr? && !Get(data, "business_activities").Str?)
    case Passport =>
      Truthy(Get(data, "personal_info")) && SearchFails(h, ItemsOf(app, Directors), PersonName(h, data))
    case NationalId =>
      Truthy(Get(data, "personal_info")) && SearchFails(h, ItemsOf(app, Directors), PersonName(h, data))
    case _ => false
  }

  /** What a memorandum gives for each section. */
  function PartOf(h: Host, i: nat, data: Fields, app: App, k: Section): Part {
    Among(Refined(app, map["legal_name" := Get(data, "company_name"),
                           "incorporation_date" := Get(data, "date_of_formation")]),
          MemorandumAddresses(h, i, data, app), MemorandumDirectors(h, i, data, app),
          MemorandumOwners(h, i, data, app), MemorandumActivity(data, app), k)
  }

  lemma PartAdded(update: App, k: Section, part: Part)
    requires k !in update
    ensures AddPart(Some(update), k, part).None? <==> part.Raises?
    ensures !part.Raises? ==>
      AddPart(Some(update), k, part) == Some(if part.Present? then update[k := part.value] else update)
  {
  }

  /** Two parts after one another, for two sections not there yet. */
  lemma TwoPartsAdded(update: App, k: Section, part: Part, l: Section, other: Part)
    requires k !in update && l !in update && k != l
    ensures var after := AddPart(AddPart(Some(update), k, part), l, other);
            && (after.None? <==> part.Raises? || other.Raises?)
            && (after.Some? ==>
                  && (k in after.value <==> part.Present?) && (k in after.value ==> after.value[k] == part.value)
                  && (l in after.value <==> other.Present?) && (l in after.value ==> after.value[l] == other.value)
                  && forall m :: m != k && m != l ==>
                       (m in after.value <==> m in update) && (m in update ==> after.value[m] == update[m]))
  {
    PartAdded(update, k, part);
    if !part.Raises? {
      PartAdded(AddPart(Some(update), k, part).value, l, other);
    }
  }

  /** The part for each section, when these are the five. */
  function Among(profile: Js, addresses: Part, directors: Part, owners: Part, activity: Part, k: Section): Part {
    match k
    case BusinessProfile => Present(profile)
    case Addresses => addresses
    case Directors => directors
    case Ubos => owners
    case BusinessActivity => activity
    case _ => Absent
  }

  lemma FourPartsAdded(profile: Js, addresses: Part, directors: Part, owners: Part, activity: Part)
    ensures var u0 := Some(map[BusinessProfile := profile]);
            var u2 := AddPart(AddPart(u0, Addresses, addresses), Directors, directors);
            var after := AddPart(AddPart(u2, Ubos, owners), BusinessActivity, activity);
            && (after.None? <==> addresses.Raises? || directors.Raises? || owners.Raises? || activity.Raises?)
            && (after.Some? ==>
                  forall k :: var part := Among(profile, addresses, directors, owners, activity, k);
                    (k in after.value <==> part.Present?) && (k in after.value ==> after.value[k] == part.value))
  {
    TwoPartsAdded(map[BusinessProfile := profile], Addresses, addresses, Directors, directors);
    var u2 := AddPart(AddPart(Some(map[BusinessProfile := profile]), Addresses, addresses), Directors, directors);
    if u2.Some? {
      TwoPartsAdded(u2.value, Ubos, owners, BusinessActivity, activity);
    }
  }

  /** The update of a memorandum consists of just these parts, and raises when one of them does. */
  lemma MemorandumParts(h: Host, i: nat, data: Fields, app: App)
    ensures MapMemorandum(h, i, data, app).None? <==>
      || MemorandumDirectors(h, i, data, app).Raises? || MemorandumOwners(h, i, data, app).Raises?
      || MemorandumActivity(data, app).Raises?
    ensures MapMemorandum(h, i, data, app).Some? ==>
      var update := MapMemorandum(h, i, data, app).value;
      forall k :: (k in update <==> PartOf(h, i, data, app, k).Present?)
        && (k in update ==> update[k] == PartOf(h, i, data, app, k).value)
  {
    FourPartsAdded(PartOf(h, i, data, app, BusinessProfile).value, MemorandumAddresses(h, i, data, app),
                   MemorandumDirectors(h, i, data, app), MemorandumOwners(h, i, data, app),
                   MemorandumActivity(data, app));
  }

  /** Exactly when mapping a result raises. */
  lemma RaisesExactly(h: Host, results: seq<ExtractionResult>, types: seq<DocType>, i: nat, t: DocType, data: Fields,
                      app: App)
    requires Says(results, types, i, t, data)
    ensures Then(h, results, types, i, app).None? <==> Raises(h, t, data, app)
  {
    match t
    case Memorandum =>
      MemorandumParts(h, i, data, app);
      PartsRaise(h, i, data, app);
    case Passport => SearchDecides(h, ItemsOf(app, Directors), PersonName(h, data));
    case NationalId => SearchDecides(h, ItemsOf(app, Directors), PersonName(h, data));
    case BankStatement => StatementKeys(h, data, app);
    case _ =>
  }

  lemma PartsRaise(h: Host, i: nat, data: Fields, app: App)
    ensures Raises(h, Memorandum, data, app) <==>
      || MemorandumDirectors(h, i, data, app).Raises? || MemorandumOwners(h, i, data, app).Raises?
      || MemorandumActivity(data, app).Raises?
  {
    if Get(data, "directors").Arr? {
      DirectorsRaise(h, i, Get(data, "directors").items);
    }
    if Get(data, "shareholders").Arr? {
      OwnersRaise(h, i, Get(data, "shareholders").items);
    }
  }

  // ---- which sections a document touches ----

  /** The sections that a document of this type can change, given what it says and what is filled already. */
  ghost predicate Touches(h: Host, t: DocType, data: Fields, app: App, k: Section) {
    match t
    case TradeLicense => k == BusinessProfile
    case Incorporation => k == BusinessProfile
    case Memorandum =>
      || k == BusinessProfile
      || (k == Addresses && Truthy(Get(data, "registered_address")) && ItemsOf(app, Addresses) == [])
      || (k == Directors && Lists(data, "directors") && ItemsOf(app, Directors) == [])
      || (k == Ubos && Lists(data, "shareholders") && ItemsOf(app, Ubos) == [])
      || (k == BusinessActivity && Lists(data, "business_activities"))
    case Passport =>
      k == Directors && Truthy(Get(data, "personal_info"))
      && (ItemsOf(app, Directors) == [] || Known(h, ItemsOf(app, Directors), PersonName(h, data)))
    case NationalId =>
      k == Directors && Truthy(Get(data, "personal_info"))
      && Truthy(OptionalProp(Get(data, "personal_info"), "address"))
      && Known(h, ItemsOf(app, Directors), PersonName(h, data))
    case ProofOfAddress => k == Addresses && ItemsOf(app, Addresses) == []
    case BankStatement =>
      || (k == TransferBehavior && (Truthy(Get(data, "total_credits")) || Truthy(Get(data, "total_debits"))))
      || (k == BusinessProfile && Truthy(OptionalProp(Get(data, "account"), "account_holder"))
          && !Truthy(ProfileField(app, "legal_name")))
    case OtherDocument => false
  }

  lemma StatementKeys(h: Host, data: Fields, app: App)
    ensures MapBankStatement(h, data, app).Some?
    ensures forall k :: k in MapBankStatement(h, data, app).value <==> Touches(h, BankStatement, data, app, k)
    ensures StatementTransfer(h, data, app).Present? ==>
      TransferBehavior in MapBankStatement(h, data, app).value
      && MapBankStatement(h, data, app).value[TransferBehavior] == StatementTransfer(h, data, app).value
  {
    PartAdded(map[], TransferBehavior, StatementTransfer(h, data, app));
    var u1 := AddPart(Some(map[]), TransferBehavior, StatementTransfer(h, data, app)).value;
    PartAdded(u1, BusinessProfile, StatementProfile(data, app));
  }

  lemma PassportKeys(h: Host, i: nat, data: Fields, app: App)
    requires MapPassport(h, i, data, app).Some?
    ensures forall k :: k in MapPassport(h, i, data, app).value <==> Touches(h, Passport, data, app, k)
  {
    SearchDecides(h, ItemsOf(app, Directors), PersonName(h, data));
  }

  lemma NationalIdKeys(h: Host, data: Fields, app: App)
    requires MapNationalId(h, data, app).Some?
    ensures forall k :: k in MapNationalId(h, data, app).value <==> Touches(h, NationalId, data, app, k)
  {
    SearchDecides(h, ItemsOf(app, Directors), PersonName(h, data));
  }

  lemma MemorandumKeys(h: Host, i: nat, data: Fields, app: App)
    requires MapMemorandum(h, i, data, app).Some?
    ensures forall k :: k in MapMemorandum(h, i, data, app).value <==> Touches(h, Memorandum, data, app, k)
  {
    MemorandumParts(h, i, data, app);
  }

  lemma UpdatesTouched(h: Host, i: nat, t: DocType, data: Fields, app: App)
    requires Mapper(h, i, t, data, app).Some?
    ensures forall k :: k in Mapper(h, i, t, data, app).value <==> Touches(h, t, data, app, k)
  {
    match t
    case Memorandum => MemorandumKeys(h, i, data, app);
    case Passport => PassportKeys(h, i, data, app);
    case NationalId => NationalIdKeys(h, data, app);
    case BankStatement => StatementKeys(h, data, app);
    case _ =>
  }

  /** Every other section is left as it is. */
  lemma OthersUntouched(h: Host, results: seq<ExtractionResult>, types: seq<DocType>, i: nat, t: DocType, data: Fields,
                        app: App, k: Section)
    requires Says(results, types, i, t, data) && Then(h, results, types, i, app).Some?
    requires !Touches(h, t, data, app, k)
    ensures var after := Then(h, results, types, i, app).value;
            (k in after <==> k in app) && (k in app ==> after[k] == app[k])
  {
    UpdatesTouched(h, i, t, data, app);
  }

  // ---- what a memorandum fills ----

  /** The listed director has the role of a chairman, in whatever case it is written. */
  predicate Chairs(h: Host, listed: Js) {
    match OptionalProp(listed, "role")
    case Str(role) => exists k :: 0 <= k <= |h.lower(role)| && "chairman" <= h.lower(role)[k..]
    case _ => false
  }

  /** The j-th new director of result i is the listed one: by name and nationality, and a signatory if he chairs. */
  predicate DirectorOf(h: Host, i: nat, j: nat, director: Js, listed: Js) {
    && OptionalProp(director, "id") == Str(h.draw(i, "dir", j))
    && OptionalProp(director, "full_name") == OrEmpty(OptionalProp(listed, "name"))
    && OptionalProp(director, "nationality") == OrEmpty(OptionalProp(listed, "nationality"))
    && OptionalProp(director, "is_signatory") == Bool(Chairs(h, listed))
    && LeftBlank(director)
  }

  /** What a memorandum does not say of a director. */
  predicate LeftBlank(director: Js) {
    forall blank :: blank in {"date_of_birth", "passport_number", "email", "phone"} ==>
      OptionalProp(director, blank) == Str("")
  }

  lemma DirectorFromBlank(h: Host, i: nat, j: nat, listed: Js)
    requires Readable(listed)
    ensures DirectorFrom(h, i, j, listed).Some? && LeftBlank(DirectorFrom(h, i, j, listed).value)
  {
  }

  lemma DirectorFromIs(h: Host, i: nat, j: nat, listed: Js)
    requires Readable(listed)
    ensures DirectorFrom(h, i, j, listed).Some? && DirectorOf(h, i, j, DirectorFrom(h, i, j, listed).value, listed)
  {
    DirectorFromBlank(h, i, j, listed);
  }

  /** One director for each that is listed, in order. */
  ghost predicate DirectorsOf(h: Host, i: nat, directors: seq<Js>, listed: seq<Js>) {
    |directors| == |listed| && forall j :: 0 <= j < |listed| ==> DirectorOf(h, i, j, directors[j], listed[j])
  }

  lemma DirectorsOfNext(h: Host, i: nat, directors: seq<Js>, listed: seq<Js>, director: Js, last: Js)
    requires DirectorsOf(h, i, directors, listed) && DirectorOf(h, i, |listed|, director, last)
    ensures DirectorsOf(h, i, directors + [director], listed + [last])
  {
  }

  lemma {:induction false} DirectorsFromAre(h: Host, i: nat, ds: seq<Js>)
    requires forall j :: 0 <= j < |ds| ==> Readable(ds[j])
    ensures DirectorsFrom(h, i, ds).Some? && DirectorsOf(h, i, DirectorsFrom(h, i, ds).value, ds)
  {
    if ds != [] {
      var n := |ds| - 1;
      DirectorsFromAre(h, i, ds[..n]);
      DirectorFromIs(h, i, n, ds[n]);
      DirectorsOfNext(h, i, DirectorsFrom(h, i, ds[..n]).value, ds[..n], DirectorFrom(h, i, n, ds[n]).value, ds[n]);
      assert ds[..n] + [ds[n]] == ds;
    }
  }

  /** The list, or the object, that a part consists of. */
  function PartItems(part: Part): seq<Js> {
    if part.Present? && part.value.Arr? then part.value.items else []
  }

  function PartFields(part: Part): Fields {
    if part.Present? && part.value.Obj? then part.value.fields else map[]
  }

  /** A section that a memorandum touches becomes what the memorandum gives for it. */
  lemma MemorandumGives(h: Host, results: seq<ExtractionResult>, types: seq<DocType>, i: nat, data: Fields, app: App,
                        k: Section)
    requires Says(results, types, i, Memorandum, data) && !Raises(h, Memorandum, data, app)
    requires Touches(h, Memorandum, data, app, k)
    ensures Then(h, results, types, i, app).Some? && PartOf(h, i, data, app, k).Present?
    ensures ItemsOf(Then(h, results, types, i, app).value, k) == PartItems(PartOf(h, i, data, app, k))
    ensures FieldsOf(Then(h, results, types, i, app).value, k) == PartFields(PartOf(h, i, data, app, k))
  {
    RaisesExactly(h, results, types, i, Memorandum, data, app);
    MemorandumParts(h, i, data, app);
    MemorandumKeys(h, i, data, app);
    SpreadItems(app, MapMemorandum(h, i, data, app).value, k);
  }

  /** With no directors yet, the application gets one for each that the memorandum lists, in order. */
  lemma MemorandumFillsDirectors(h: Host, results: seq<ExtractionResult>, types: seq<DocType>, i: nat, data: Fields,
                                 app: App, ds: seq<Js>)
    requires Says(results, types, i, Memorandum, data) && !Raises(h, Memorandum, data, app)
    requires ItemsOf(app, Directors) == [] && Get(data, "directors") == Arr(ds) && ds != []
    ensures Then(h, results, types, i, app).Some?
    ensures DirectorsOf(h, i, ItemsOf(Then(h, results, types, i, app).value, Directors), ds)
  {
    assert Lists(data, "directors");
    MemorandumGives(h, results, types, i, data, app, Directors);
    DirectorsPartIs(h, i, data, app, ds);
  }

  lemma DirectorsPartIs(h: Host, i: nat, data: Fields, app: App, ds: seq<Js>)
    requires ItemsOf(app, Directors) == [] && Get(data, "directors") == Arr(ds) && ds != []
    requires PartOf(h, i, data, app, Directors).Present?
    ensures DirectorsOf(h, i, PartItems(PartOf(h, i, data, app, Directors)), ds)
  {
    DirectorsRaise(h, i, ds);
    DirectorsFromAre(h, i, ds);
  }

  /** With no owners yet, it gets the listed shareholders of at least ten per cent, in order. */
  lemma MemorandumFillsOwners(h: Host, results: seq<ExtractionResult>, types: seq<DocType>, i: nat, data: Fields,
                              app: App, ss: seq<Js>)
    requires Says(results, types, i, Memorandum, data) && !Raises(h, Memorandum, data, app)
    requires ItemsOf(app, Ubos) == [] && Get(data, "shareholders") == Arr(ss) && ss != []
    ensures Then(h, results, types, i, app).Some?
    ensures OwnersOf(h, i, ItemsOf(Then(h, results, types, i, app).value, Ubos), Qualified(h, ss))
  {
    assert Lists(data, "shareholders");
    MemorandumGives(h, results, types, i, data, app, Ubos);
    OwnersPartIs(h, i, data, app, ss);
  }

  ghost predicate OwnersOf(h: Host, i: nat, owners: seq<Js>, holders: seq<Js>) {
    |owners| == |holders| && forall j :: 0 <= j < |holders| ==> OwnerOf(h, i, j, owners[j], holders[j])
  }

  lemma OwnersPartIs(h: Host, i: nat, data: Fields, app: App, ss: seq<Js>)
    requires ItemsOf(app, Ubos) == [] && Get(data, "shareholders") == Arr(ss) && ss != []
    requires PartOf(h, i, data, app, Ubos).Present?
    ensures OwnersOf(h, i, PartItems(PartOf(h, i, data, app, Ubos)), Qualified(h, ss))
  {
    OwnersRaise(h, i, ss);
    OwnersAreQualified(h, i, ss);
  }

  /** With no address yet, it gets the registered one. */
  lemma MemorandumFillsAddress(h: Host, results: seq<ExtractionResult>, types: seq<DocType>, i: nat, data: Fields,
                               app: App)
    requires Says(results, types, i, Memorandum, data) && !Raises(h, Memorandum, data, app)
    requires ItemsOf(app, Addresses) == [] && Truthy(Get(data, "registered_address"))
    ensures Then(h, results, types, i, app).Some?
    ensures var filled := ItemsOf(Then(h, results, types, i, app).value, Addresses);
            |filled| == 1 && RegisteredAt(h, i, Get(data, "registered_address"), filled[0])
  {
    MemorandumGives(h, results, types, i, data, app, Addresses);
    RegisteredAddressIs(h, i, Get(data, "registered_address"));
    AddressPartIs(h, i, data, app);
  }

  lemma AddressPartIs(h: Host, i: nat, data: Fields, app: App)
    requires ItemsOf(app, Addresses) == [] && Truthy(Get(data, "registered_address"))
    ensures PartItems(PartOf(h, i, data, app, Addresses)) == [RegisteredAddress(h, i, Get(data, "registered_address"))]
  {
  }

  /** The address is this line, registered, in the Emirates. */
  predicate RegisteredAt(h: Host, i: nat, line: Js, address: Js) {
    && OptionalProp(address, "line1") == line
    && OptionalProp(address, "type") == Str("REGISTERED") && OptionalProp(address, "city") == Str("")
    && OptionalProp(address, "country") == Str("AE") && OptionalProp(address, "id") == Str(h.draw(i, "addr", 0))
  }

  lemma RegisteredAddressIs(h: Host, i: nat, line: Js)
    ensures RegisteredAt(h, i, line, RegisteredAddress(h, i, line))
  {
  }

  /** The first item is the primary activity, up to three more are the secondary ones, and all else stays. */
  ghost predicate ActivityOf(filled: Fields, known: Fields, items: seq<Js>, name: string)
    requires items != []
  {
    && Get(filled, "primary_activity") == items[0]
    && (exists rest :: Get(filled, "secondary_activities") == Arr(rest) && [items[0]] + rest <= items
          && |rest| == (if |items| < 4 then |items| - 1 else 3))
    && (name !in {"primary_activity", "secondary_activities"} ==> Get(filled, name) == Get(known, name))
  }

  lemma ActivityIs(data: Fields, app: App, items: seq<Js>, name: string)
    requires Get(data, "business_activities") == Arr(items) && items != []
    ensures MemorandumActivity(data, app).Present? && MemorandumActivity(data, app).value.Obj?
    ensures ActivityOf(MemorandumActivity(data, app).value.fields, FieldsOf(app, BusinessActivity), items, name)
  {
    var rest := if |items| <= 4 then items[1..] else items[1..4];
    assert [items[0]] + rest == items[..1 + |rest|];
    assert Get(MemorandumActivity(data, app).value.fields, "secondary_activities") == Arr(rest);
  }

  /** A memorandum's activities, where it lists any. */
  lemma MemorandumFillsActivity(h: Host, results: seq<ExtractionResult>, types: seq<DocType>, i: nat, data: Fields,
                                app: App, items: seq<Js>, name: string)
    requires Says(results, types, i, Memorandum, data) && !Raises(h, Memorandum, data, app)
    requires Get(data, "business_activities") == Arr(items) && items != []
    ensures Then(h, results, types, i, app).Some?
    ensures ActivityOf(FieldsOf(Then(h, results, types, i, app).value, BusinessActivity),
                       FieldsOf(app, BusinessActivity), items, name)
  {
    assert Lists(data, "business_activities");
    MemorandumGives(h, results, types, i, data, app, BusinessActivity);
    ActivityIs(data, app, items, name);
    assert PartOf(h, i, data, app, BusinessActivity) == MemorandumActivity(data, app);
  }

  // ---- what a person's documents do ----

  /** What the passport itself says of its holder. */
  predicate DescribedBy(personal: Js, docInfo: Js, director: Js) {
    && OptionalProp(director, "nationality") == OrEmpty(OptionalProp(personal, "nationality"))
    && OptionalProp(director, "date_of_birth") == OrEmpty(OptionalProp(personal, "date_of_birth"))
    && OptionalProp(director, "phone") == OrEmpty(OptionalProp(personal, "phone"))
    && OptionalProp(director, "passport_number") == OrEmpty(OptionalProp(docInfo, "id_number"))
  }

  /** The new director is the person the passport describes, under this name, and a signatory. */
  predicate HolderOf(h: Host, i: nat, name: Js, personal: Js, docInfo: Js, director: Js) {
    && OptionalProp(director, "id") == Str(h.draw(i, "dir", 0))
    && OptionalProp(director, "full_name") == name
    && OptionalProp(director, "email") == Str("") && OptionalProp(director, "is_signatory") == Bool(true)
    && DescribedBy(personal, docInfo, director)
  }

  lemma HolderIsDescribed(h: Host, i: nat, name: Js, personal: Js, docInfo: Js)
    ensures DescribedBy(personal, docInfo, DirectorFromPassport(h, i, name, personal, docInfo))
  {
  }

  lemma HolderIs(h: Host, i: nat, name: Js, personal: Js, docInfo: Js)
    ensures HolderOf(h, i, name, personal, docInfo, DirectorFromPassport(h, i, name, personal, docInfo))
  {
    HolderIsDescribed(h, i, name, personal, docInfo);
  }

  /** A passport gives an application without directors its holder. */
  lemma PassportAddsDirector(h: Host, results: seq<ExtractionResult>, types: seq<DocType>, i: nat, data: Fields,
                             app: App)
    requires Says(results, types, i, Passport, data) && Truthy(Get(data, "personal_info"))
    requires ItemsOf(app, Directors) == []
    ensures Then(h, results, types, i, app).Some?
    ensures var filled := ItemsOf(Then(h, results, types, i, app).value, Directors);
            |filled| == 1
            && HolderOf(h, i, PersonName(h, data), Get(data, "personal_info"), Get(data, "document_info"), filled[0])
  {
    HolderIs(h, i, PersonName(h, data), Get(data, "personal_info"), Get(data, "document_info"));
    assert FindDirector(h, [], PersonName(h, data)) == NotFound;
    SpreadItems(app, MapPassport(h, i, data, app).value, Directors);
  }

  /** The director's field is what the document says of it, or else what it was; a name not listed stays. */
  predicate RefinedBy(before: Js, after: Js, found: Fields, name: string) {
    before.Obj? && after.Obj? && Get(after.fields, name) ==
      if name in found && Truthy(found[name]) then found[name] else Get(before.fields, name)
  }

  /** Everyone with the id of the named director is refined, and everyone else as before. */
  ghost predicate NamesakesRefined(h: Host, data: Fields, before: seq<Js>, after: seq<Js>, found: Fields) {
    && |after| == |before|
    && forall j, k :: 0 <= j < |before| && FirstOfName(h, before, PersonName(h, data), j) && 0 <= k < |before| ==>
         if before[k].Obj? && Get(before[k].fields, "id") == OptionalProp(before[j], "id")
         then forall name :: RefinedBy(before[k], after[k], found, name)
         else after[k] == before[k]
  }

  lemma UpdateRefines(h: Host, data: Fields, ds: seq<Js>, j: nat, found: Fields)
    requires j < |ds| && FirstOfName(h, ds, PersonName(h, data), j)
    ensures NamesakesRefined(h, data, ds, UpdateDirectors(ds, OptionalProp(ds[j], "id"), found), found)
  {
    var id := OptionalProp(ds[j], "id");
    forall m, k | 0 <= m < |ds| && FirstOfName(h, ds, PersonName(h, data), m) && 0 <= k < |ds|
      ensures if ds[k].Obj? && Get(ds[k].fields, "id") == OptionalProp(ds[m], "id")
              then forall name :: RefinedBy(ds[k], UpdateDirectors(ds, id, found)[k], found, name)
              else UpdateDirectors(ds, id, found)[k] == ds[k]
    {
      FirstIsOne(h, ds, PersonName(h, data), j, m);
      UpdatedDirectorAt(ds, id, found, k, "");
      if ds[k].Obj? && Get(ds[k].fields, "id") == id {
        forall name ensures RefinedBy(ds[k], UpdateDirectors(ds, id, found)[k], found, name) {
          UpdatedDirectorAt(ds, id, found, k, name);
        }
      }
    }
  }

  lemma FirstIsOne(h: Host, ds: seq<Js>, name: Js, j: nat, m: nat)
    requires j < |ds| && m < |ds| && FirstOfName(h, ds, name, j) && FirstOfName(h, ds, name, m)
    ensures j == m
  {
  }

  /** A passport that names a known director refines nationality, birth date and passport number. */
  lemma PassportRefinesKnown(h: Host, results: seq<ExtractionResult>, types: seq<DocType>, i: nat, data: Fields,
                             app: App)
    requires Says(results, types, i, Passport, data) && Truthy(Get(data, "personal_info"))
    requires Known(h, ItemsOf(app, Directors), PersonName(h, data))
    ensures Then(h, results, types, i, app).Some?
    ensures var personal := Get(data, "personal_info");
            var after := ItemsOf(Then(h, results, types, i, app).value, Directors);
            NamesakesRefined(h, data, ItemsOf(app, Directors), after,
              map["nationality" := OptionalProp(personal, "nationality"),
                  "date_of_birth" := OptionalProp(personal, "date_of_birth"),
                  "passport_number" := OptionalProp(Get(data, "document_info"), "id_number")])
  {
    var ds := ItemsOf(app, Directors);
    SearchDecides(h, ds, PersonName(h, data));
    var j :| 0 <= j < |ds| && FirstOfName(h, ds, PersonName(h, data), j);
    UpdateRefines(h, data, ds, j, PassportFields(data));
  }

  /** An Emirates ID with an address that names a known director refines the nationality only. */
  lemma NationalIdRefinesKnown(h: Host, results: seq<ExtractionResult>, types: seq<DocType>, i: nat, data: Fields,
                               app: App)
    requires Says(results, types, i, NationalId, data) && Truthy(Get(data, "personal_info"))
    requires Known(h, ItemsOf(app, Directors), PersonName(h, data))
    requires Truthy(OptionalProp(Get(data, "personal_info"), "address"))
    ensures Then(h, results, types, i, app).Some?
    ensures var after := ItemsOf(Then(h, results, types, i, app).value, Directors);
            NamesakesRefined(h, data, ItemsOf(app, Directors), after,
              map["nationality" := OptionalProp(Get(data, "personal_info"), "nationality")])
  {
    var ds := ItemsOf(app, Directors);
    SearchDecides(h, ds, PersonName(h, data));
    var j :| 0 <= j < |ds| && FirstOfName(h, ds, PersonName(h, data), j);
    UpdateRefines(h, data, ds, j, map["nationality" := OptionalProp(Get(data, "personal_info"), "nationality")]);
  }

  // ---- addresses and statements ----

  /** What may be missing from an address stays undefined. */
  predicate OptionalLines(data: Fields, address: Js) {
    forall name :: name in {"line2", "emirate", "postal_code"} ==>
      OptionalProp(address, name) == if Truthy(Get(data, name)) then Get(data, name) else Undefined
  }

  /** The new address is the stated one; a missing country is the Emirates. */
  predicate AddressOf(h: Host, i: nat, data: Fields, address: Js) {
    && OptionalProp(address, "id") == Str(h.draw(i, "addr", 0))
    && OptionalProp(address, "type") == Str("REGISTERED")
    && OptionalProp(address, "line1") == OrEmpty(Get(data, "line1"))
    && OptionalProp(address, "city") == OrEmpty(Get(data, "city"))
    && OptionalProp(address, "country") == (if Truthy(Get(data, "country")) then Get(data, "country") else Str("AE"))
    && OptionalLines(data, address)
  }

  lemma OptionalLinesAre(h: Host, i: nat, data: Fields)
    ensures OptionalLines(data, AddressFrom(h, i, data))
  {
  }

  lemma AddressLabels(h: Host, i: nat, data: Fields)
    ensures OptionalProp(AddressFrom(h, i, data), "id") == Str(h.draw(i, "addr", 0))
    ensures OptionalProp(AddressFrom(h, i, data), "type") == Str("REGISTERED")
  {
  }

  lemma AddressIs(h: Host, i: nat, data: Fields)
    ensures AddressOf(h, i, data, AddressFrom(h, i, data))
  {
    AddressLabels(h, i, data);
    OptionalLinesAre(h, i, data);
  }

  lemma ProofGives(h: Host, results: seq<ExtractionResult>, types: seq<DocType>, i: nat, data: Fields, app: App)
    requires Says(results, types, i, ProofOfAddress, data) && ItemsOf(app, Addresses) == []
    ensures Then(h, results, types, i, app).Some?
    ensures ItemsOf(Then(h, results, types, i, app).value, Addresses) == [AddressFrom(h, i, data)]
  {
    SpreadItems(app, MapProofOfAddress(h, i, data, app).value, Addresses);
  }

  /** A proof of address gives an application without addresses its own. */
  lemma ProofFillsAddress(h: Host, results: seq<ExtractionResult>, types: seq<DocType>, i: nat, data: Fields, app: App)
    requires Says(results, types, i, ProofOfAddress, data) && ItemsOf(app, Addresses) == []
    ensures Then(h, results, types, i, app).Some?
    ensures var filled := ItemsOf(Then(h, results, types, i, app).value, Addresses);
            |filled| == 1 && AddressOf(h, i, data, filled[0])
  {
    AddressIs(h, i, data);
    ProofGives(h, results, types, i, data, app);
  }

  /** The total that counts: the credits, or else the debits. */
  function Total(data: Fields): Js {
    if Truthy(Get(data, "total_credits")) then Get(data, "total_credits") else Get(data, "total_debits")
  }

  /**
   * The transfer section has the statement's total as its monthly volume, and the number of its transactions
   * if it lists any; a purpose is only filled in where there is none, and all else stays.
   */
  predicate TransferOf(h: Host, data: Fields, known: Fields, filled: Fields, name: string) {
    var purpose := Get(known, "primary_transfer_purpose");
    && Get(filled, "expected_monthly_volume_usd") == h.round(Total(data))
    && Get(filled, "expected_monthly_transactions") ==
         (match Get(data, "transactions")
          case Arr(items) => if items != [] then Num(|items| as real) else Get(known, "expected_monthly_transactions")
          case Undefined => Get(known, "expected_monthly_transactions")
          case Null => Get(known, "expected_monthly_transactions")
          case _ => Get(filled, "expected_monthly_transactions"))
    && Get(filled, "primary_transfer_purpose") ==
         (if Truthy(purpose) then purpose else Str("Operating expenses & vendor payments"))
    && (name !in {"expected_monthly_volume_usd", "expected_monthly_transactions", "primary_transfer_purpose"} ==>
          Get(filled, name) == Get(known, name))
  }

  lemma TransferIs(h: Host, data: Fields, app: App, name: string)
    requires Truthy(Get(data, "total_credits")) || Truthy(Get(data, "total_debits"))
    ensures StatementTransfer(h, data, app).Present? && StatementTransfer(h, data, app).value.Obj?
    ensures TransferOf(h, data, FieldsOf(app, TransferBehavior), StatementTransfer(h, data, app).value.fields, name)
  {
  }

  /** A bank statement with totals, its credits before its debits. */
  lemma StatementFillsTransfer(h: Host, results: seq<ExtractionResult>, types: seq<DocType>, i: nat, data: Fields,
                               app: App, name: string)
    requires Says(results, types, i, BankStatement, data)
    requires Truthy(Get(data, "total_credits")) || Truthy(Get(data, "total_debits"))
    ensures Then(h, results, types, i, app).Some?
    ensures TransferOf(h, data, FieldsOf(app, TransferBehavior),
                       FieldsOf(Then(h, results, types, i, app).value, TransferBehavior), name)
  {
    StatementKeys(h, data, app);
    TransferIs(h, data, app, name);
    SpreadItems(app, MapBankStatement(h, data, app).value, TransferBehavior);
  }
}
