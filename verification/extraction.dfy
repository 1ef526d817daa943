/**
 * Merging document extractions into an application: each result is mapped against the application
 * as merged so far, and the partial updates are accumulated by a one-level deep merge.
 */
module Extraction {
  import opened Wrappers

  /** Values as they come out of a JSON document, and undefined. */
  datatype Js = Undefined | Null | Bool(b: bool) | Num(n: real) | Str(s: string) | Arr(items: seq<Js>)
              | Obj(fields: Fields)

  type Fields = map<string, Js>

  /** The parts of an application; no mapper touches any but the first six. */
  datatype Section = BusinessProfile | Addresses | Directors | Ubos | BusinessActivity | TransferBehavior
                   | Other(name: string)

  /** An application, or an update of some of its parts. */
  type App = map<Section, Js>

  datatype DocType = TradeLicense | Memorandum | Incorporation | Passport | NationalId | ProofOfAddress
                   | BankStatement | OtherDocument

  datatype ExtractionResult = ExtractionResult(success: bool, data: Option<Fields>)

  /**
   * What the JavaScript host supplies: case folding, conversion to text, the comparison with ten,
   * rounding, and the random identifier drawn for the j-th new item of a kind in result i.
   */
  datatype Host = Host(lower: string -> string, text: Js -> string, atLeastTen: Js -> bool, round: Js -> Js,
                       draw: (nat, string, nat) -> string)

  // ---- the language ----

  predicate Truthy(v: Js) {
    match v
    case Undefined => false
    case Null => false
    case Bool(b) => b
    case Num(n) => n != 0.0
    case Str(s) => s != ""
    case Arr(_) => true
    case Obj(_) => true
  }

  /** The values that count as false. */
  lemma FalsyValues(v: Js)
    ensures !Truthy(v) <==> v in {Undefined, Null, Bool(false), Num(0.0), Str("")}
  {
  }

  predicate Nullish(v: Js) {
    v.Undefined? || v.Null?
  }

  function Or(a: Js, b: Js): Js {
    if Truthy(a) then a else b
  }

  function Get(f: Fields, name: string): Js {
    if name in f then f[name] else Undefined
  }

  /** Reading a property; None stands for the exception that nothing and null raise. */
  function Prop(v: Js, name: string): Option<Js> {
    if Nullish(v) then None else if v.Obj? then Some(Get(v.fields, name)) else Some(Undefined)
  }

  function OptionalProp(v: Js, name: string): Js {
    if v.Obj? then Get(v.fields, name) else Undefined
  }

  function Length(v: Js): Js {
    match v
    case Arr(items) => Num(|items| as real)
    case Str(s) => Num(|s| as real)
    case Obj(f) => Get(f, "length")
    case _ => Undefined
  }

  predicate NonEmpty(v: Js) {
    Truthy(v) && Length(v).Num? && Length(v).n > 0.0
  }

  predicate Contains(s: string, part: string) {
    exists i :: 0 <= i <= |s| && part <= s[i..]
  }

  // ---- applications ----

  // The Application type promises objects and lists where these look for them; absent parts read as empty.

  function FieldsOf(app: App, k: Section): Fields {
    if k in app && app[k].Obj? then app[k].fields else map[]
  }

  function ItemsOf(app: App, k: Section): seq<Js> {
    if k in app && app[k].Arr? then app[k].items else []
  }

  // ---- mappers; None stands for an exception ----

  function DirectorFrom(h: Host, i: nat, j: nat, d: Js): Option<Js> {
    if Nullish(d) then None
    else
      var role := Prop(d, "role").value;
      if !Nullish(role) && !role.Str? then None
      else Some(Obj(map[
        "id" := Str(h.draw(i, "dir", j)),
        "full_name" := Or(Prop(d, "name").value, Str("")),
        "nationality" := Or(Prop(d, "nationality").value, Str("")),
        "date_of_birth" := Str(""), "passport_number" := Str(""), "email" := Str(""), "phone" := Str(""),
        "is_signatory" := Bool(role.Str? && Contains(h.lower(role.s), "chairman"))]))
  }

  function DirectorsFrom(h: Host, i: nat, ds: seq<Js>): Option<seq<Js>> {
    if ds == [] then Some([])
    else
      var init, last := DirectorsFrom(h, i, ds[..|ds| - 1]), DirectorFrom(h, i, |ds| - 1, ds[|ds| - 1]);
      if init.None? || last.None? then None else Some(init.value + [last.value])
  }

  function OwnerFrom(h: Host, i: nat, j: nat, s: Js): Js {
    Obj(map[
      "id" := Str(h.draw(i, "ubo", j)),
      "full_name" := Or(OptionalProp(s, "name"), Str("")),
      "nationality" := Or(OptionalProp(s, "nationality"), Str("")),
      "date_of_birth" := Str(""),
      "ownership_percentage" := Or(OptionalProp(s, "share_percentage"), Num(0.0)),
      "passport_number" := Str(""), "residential_address" := Str("")])
  }

  /** Shareholders of at least ten per cent, each as an owner. */
  function OwnersFrom(h: Host, i: nat, ss: seq<Js>): Option<seq<Js>> {
    if ss == [] then Some([])
    else
      var init, s := OwnersFrom(h, i, ss[..|ss| - 1]), ss[|ss| - 1];
      if init.None? || Nullish(s) then None
      else if !h.atLeastTen(OptionalProp(s, "share_percentage")) then init
      else Some(init.value + [OwnerFrom(h, i, |init.value|, s)])
  }

  /** An optional part of an update: absent, present, or an exception. */
  datatype Part = Absent | Present(value: Js) | Raises

  function AddPart(update: Option<App>, k: Section, part: Part): Option<App> {
    if update.None? || part.Raises? then None
    else if part.Absent? then update
    else Some(update.value[k := part.value])
  }

  function RegisteredAddress(h: Host, i: nat, line: Js): Js {
    Obj(map["id" := Str(h.draw(i, "addr", 0)), "type" := Str("REGISTERED"),
            "line1" := line, "city" := Str(""), "country" := Str("AE")])
  }

  function MemorandumAddresses(h: Host, i: nat, data: Fields, app: App): Part {
    if Truthy(Get(data, "registered_address")) && ItemsOf(app, Addresses) == []
    then Present(Arr([RegisteredAddress(h, i, Get(data, "registered_address"))])) else Absent
  }

  function MemorandumDirectors(h: Host, i: nat, data: Fields, app: App): Part {
    var ds := Get(data, "directors");
    if !NonEmpty(ds) || ItemsOf(app, Directors) != [] then Absent
    else if !ds.Arr? || DirectorsFrom(h, i, ds.items).None? then Raises
    else Present(Arr(DirectorsFrom(h, i, ds.items).value))
  }

  function MemorandumOwners(h: Host, i: nat, data: Fields, app: App): Part {
    var ss := Get(data, "shareholders");
    if !NonEmpty(ss) || ItemsOf(app, Ubos) != [] then Absent
    else if !ss.Arr? || OwnersFrom(h, i, ss.items).None? then Raises
    else Present(Arr(OwnersFrom(h, i, ss.items).value))
  }

  function MemorandumActivity(data: Fields, app: App): Part {
    var a := Get(data, "business_activities");
    if !NonEmpty(a) then Absent
    else match a
      case Arr(items) =>
        Present(Obj(FieldsOf(app, BusinessActivity) + map[
          "primary_activity" := if items != [] then items[0] else Undefined,
          "secondary_activities" := Arr(if |items| < 1 then [] else if |items| <= 4 then items[1..] else items[1..4])]))
      case Str(s) =>
        Present(Obj(FieldsOf(app, BusinessActivity) + map[
          "primary_activity" := Str(if s != "" then s[..1] else ""),
          "secondary_activities" := Str(if |s| < 1 then "" else if |s| <= 4 then s[1..] else s[1..4])]))
      case _ => Raises
  }

  /** The profile with some fields replaced where the document has a value for them. */
  function Refined(app: App, found: Fields): Js {
    var known := FieldsOf(app, BusinessProfile);
    Obj(known + map name | name in found :: Or(found[name], Get(known, name)))
  }

  function MapMemorandum(h: Host, i: nat, data: Fields, app: App): Option<App> {
    var profile := Refined(app, map["legal_name" := Get(data, "company_name"),
                                    "incorporation_date" := Get(data, "date_of_formation")]);
    var u0 := Some(map[BusinessProfile := profile]);
    var u1 := AddPart(u0, Addresses, MemorandumAddresses(h, i, data, app));
    var u2 := AddPart(u1, Directors, MemorandumDirectors(h, i, data, app));
    var u3 := AddPart(u2, Ubos, MemorandumOwners(h, i, data, app));
    AddPart(u3, BusinessActivity, MemorandumActivity(data, app))
  }

  function TextOf(h: Host, v: Js): string {
    if v.Str? then v.s else h.text(v)
  }

  function FullName(h: Host, personal: Js): Js {
    var first, last := OptionalProp(personal, "first_name"), OptionalProp(personal, "last_name");
    Or(OptionalProp(personal, "full_name"),
       Str(if Truthy(first) && Truthy(last) then TextOf(h, first) + " " + TextOf(h, last)
           else if Truthy(first) then TextOf(h, first)
           else if Truthy(last) then TextOf(h, last)
           else ""))
  }

  datatype Search = Found(director: Js) | NotFound | SearchRaises

  /** The first director of that name, compared with case folded; a name that is no text raises. */
  function FindDirector(h: Host, ds: seq<Js>, name: Js): Search {
    if ds == [] then NotFound
    else
      var own := Prop(ds[0], "full_name");
      if own.None? || !own.value.Str? || !name.Str? then SearchRaises
      else if h.lower(own.value.s) == h.lower(name.s) then Found(ds[0])
      else FindDirector(h, ds[1..], name)
  }

  /** Every director with this id gets the given fields where the document has a value for them. */
  function UpdateDirectors(ds: seq<Js>, id: Js, found: Fields): (r: seq<Js>)
    ensures |r| == |ds|
  {
    if ds == [] then []
    else
      var d := ds[0];
      var here := if d.Obj? && Get(d.fields, "id") == id
                  then Obj(d.fields + map name | name in found :: Or(found[name], Get(d.fields, name))) else d;
      [here] + UpdateDirectors(ds[1..], id, found)
  }

  function DirectorFromPassport(h: Host, i: nat, name: Js, personal: Js, docInfo: Js): Js {
    Obj(map[
      "id" := Str(h.draw(i, "dir", 0)), "full_name" := name,
      "nationality" := Or(OptionalProp(personal, "nationality"), Str("")),
      "date_of_birth" := Or(OptionalProp(personal, "date_of_birth"), Str("")),
      "passport_number" := Or(OptionalProp(docInfo, "id_number"), Str("")),
      "email" := Str(""), "phone" := Or(OptionalProp(personal, "phone"), Str("")),
      "is_signatory" := Bool(true)])
  }

  function MapPassport(h: Host, i: nat, data: Fields, app: App): Option<App> {
    var personal, docInfo := Get(data, "personal_info"), Get(data, "document_info");
    if !Truthy(personal) then Some(map[])
    else
      var name, ds := FullName(h, personal), ItemsOf(app, Directors);
      match FindDirector(h, ds, name)
      case SearchRaises => None
      case Found(d) =>
        Some(map[Directors := Arr(UpdateDirectors(ds, OptionalProp(d, "id"), map[
          "nationality" := OptionalProp(personal, "nationality"),
          "date_of_birth" := OptionalProp(personal, "date_of_birth"),
          "passport_number" := OptionalProp(docInfo, "id_number")]))])
      case NotFound =>
        if ds != [] then Some(map[])
        else Some(map[Directors := Arr([DirectorFromPassport(h, i, name, personal, docInfo)])])
  }

  function MapNationalId(h: Host, data: Fields, app: App): Option<App> {
    var personal := Get(data, "personal_info");
    if !Truthy(personal) then Some(map[])
    else
      var ds := ItemsOf(app, Directors);
      match FindDirector(h, ds, FullName(h, personal))
      case SearchRaises => None
      case NotFound => Some(map[])
      case Found(d) =>
        if !Truthy(OptionalProp(personal, "address")) then Some(map[])
        else Some(map[Directors := Arr(UpdateDirectors(ds, OptionalProp(d, "id"), map[
          "nationality" := OptionalProp(personal, "nationality")]))])
  }

  function StatementTransfer(h: Host, data: Fields, app: App): Part {
    var credits, debits := Get(data, "total_credits"), Get(data, "total_debits");
    var t := FieldsOf(app, TransferBehavior);
    if !Truthy(credits) && !Truthy(debits) then Absent
    else Present(Obj(t + map[
      "expected_monthly_volume_usd" := h.round(Or(credits, Or(debits, Num(0.0)))),
      "expected_monthly_transactions" :=
        Or(Length(Get(data, "transactions")), Get(t, "expected_monthly_transactions")),
      "primary_transfer_purpose" :=
        Or(Get(t, "primary_transfer_purpose"), Str("Operating expenses & vendor payments"))]))
  }

  function StatementProfile(data: Fields, app: App): Part {
    var holder, p := OptionalProp(Get(data, "account"), "account_holder"), FieldsOf(app, BusinessProfile);
    if Truthy(holder) && !Truthy(Get(p, "legal_name")) then Present(Obj(p["legal_name" := holder])) else Absent
  }

  function MapBankStatement(h: Host, data: Fields, app: App): Option<App> {
    AddPart(AddPart(Some(map[]), TransferBehavior, StatementTransfer(h, data, app)),
            BusinessProfile, StatementProfile(data, app))
  }

  function MapTradeLicense(data: Fields, app: App): Option<App> {
    Some(map[BusinessProfile := Refined(app, map[
      "legal_name" := Get(data, "legal_name"), "trade_name" := Get(data, "trade_name"),
      "license_number" := Get(data, "license_number"), "license_expiry" := Get(data, "license_expiry"),
      "entity_type" := Get(data, "entity_type")])])
  }

  function MapIncorporation(data: Fields, app: App): Option<App> {
    Some(map[BusinessProfile := Refined(app, map[
      "legal_name" := Get(data, "company_name"), "incorporation_date" := Get(data, "incorporation_date")])])
  }

  function AddressFrom(h: Host, i: nat, data: Fields): Js {
    Obj(map[
      "id" := Str(h.draw(i, "addr", 0)), "type" := Str("REGISTERED"),
      "line1" := Or(Get(data, "line1"), Str("")), "line2" := Or(Get(data, "line2"), Undefined),
      "city" := Or(Get(data, "city"), Str("")), "emirate" := Or(Get(data, "emirate"), Undefined),
      "country" := Or(Get(data, "country"), Str("AE")),
      "postal_code" := Or(Get(data, "postal_code"), Undefined)])
  }

  function MapProofOfAddress(h: Host, i: nat, data: Fields, app: App): Option<App> {
    if ItemsOf(app, Addresses) != [] then Some(map[]) else Some(map[Addresses := Arr([AddressFrom(h, i, data)])])
  }

  function Mapper(h: Host, i: nat, t: DocType, data: Fields, app: App): Option<App> {
    match t
    case Memorandum => MapMemorandum(h, i, data, app)
    case Passport => MapPassport(h, i, data, app)
    case NationalId => MapNationalId(h, data, app)
    case BankStatement => MapBankStatement(h, data, app)
    case TradeLicense => MapTradeLicense(data, app)
    case Incorporation => MapIncorporation(data, app)
    case ProofOfAddress => MapProofOfAddress(h, i, data, app)
    case OtherDocument => Some(map[])
  }

  // ---- what the mappers take from a document ----

  const LICENSE_FIELDS := {"legal_name", "trade_name", "license_number", "license_expiry", "entity_type"}

  lemma PartElsewhere(update: Option<App>, k: Section, part: Part)
    requires update.Some? && BusinessProfile in update.value && k != BusinessProfile
    ensures var after := AddPart(update, k, part);
            after.Some? ==>
              BusinessProfile in after.value && after.value[BusinessProfile] == update.value[BusinessProfile]
  {
  }

  /** A memorandum's profile is refined before anything else, and stays. */
  lemma MemorandumProfile(h: Host, i: nat, data: Fields, app: App)
    requires MapMemorandum(h, i, data, app).Some?
    ensures BusinessProfile in MapMemorandum(h, i, data, app).value
    ensures MapMemorandum(h, i, data, app).value[BusinessProfile] ==
      Refined(app, map["legal_name" := Get(data, "company_name"),
                       "incorporation_date" := Get(data, "date_of_formation")])
  {
    var profile := Refined(app, map["legal_name" := Get(data, "company_name"),
                                    "incorporation_date" := Get(data, "date_of_formation")]);
    var u0 := Some(map[BusinessProfile := profile]);
    var u1 := AddPart(u0, Addresses, MemorandumAddresses(h, i, data, app));
    var u2 := AddPart(u1, Directors, MemorandumDirectors(h, i, data, app));
    var u3 := AddPart(u2, Ubos, MemorandumOwners(h, i, data, app));
    PartElsewhere(u0, Addresses, MemorandumAddresses(h, i, data, app));
    PartElsewhere(u1, Directors, MemorandumDirectors(h, i, data, app));
    PartElsewhere(u2, Ubos, MemorandumOwners(h, i, data, app));
    PartElsewhere(u3, BusinessActivity, MemorandumActivity(data, app));
  }

  /** The shareholders of at least ten per cent, in the order of the document. */
  function Qualified(h: Host, ss: seq<Js>): seq<Js> {
    if ss == [] then []
    else
      var last := ss[|ss| - 1];
      Qualified(h, ss[..|ss| - 1]) + (if h.atLeastTen(OptionalProp(last, "share_percentage")) then [last] else [])
  }

  /** The j-th owner of result i stands for this shareholder. */
  predicate OwnerOf(h: Host, i: nat, j: nat, owner: Js, holder: Js) {
    && OptionalProp(owner, "id") == Str(h.draw(i, "ubo", j))
    && OptionalProp(owner, "full_name") == Or(OptionalProp(holder, "name"), Str(""))
    && OptionalProp(owner, "nationality") == Or(OptionalProp(holder, "nationality"), Str(""))
    && OptionalProp(owner, "ownership_percentage") == Or(OptionalProp(holder, "share_percentage"), Num(0.0))
    && (forall blank :: blank in {"date_of_birth", "passport_number", "residential_address"} ==>
          OptionalProp(owner, blank) == Str(""))
  }

  lemma OwnerFromIs(h: Host, i: nat, j: nat, s: Js)
    ensures OwnerOf(h, i, j, OwnerFrom(h, i, j, s), s)
  {
  }

  /** The owners are exactly these shareholders, in order, each with the next identifier. */
  lemma {:induction false} OwnersAreQualified(h: Host, i: nat, ss: seq<Js>)
    requires OwnersFrom(h, i, ss).Some?
    ensures |OwnersFrom(h, i, ss).value| == |Qualified(h, ss)|
    ensures forall j :: 0 <= j < |Qualified(h, ss)| ==>
      OwnerOf(h, i, j, OwnersFrom(h, i, ss).value[j], Qualified(h, ss)[j])
  {
    if ss != [] {
      var init, last := ss[..|ss| - 1], ss[|ss| - 1];
      OwnersAreQualified(h, i, init);
      OwnerFromIs(h, i, |Qualified(h, init)|, last);
    }
  }

  predicate NamedLike(h: Host, d: Js, name: Js) {
    var own := OptionalProp(d, "full_name");
    own.Str? && name.Str? && h.lower(own.s) == h.lower(name.s)
  }

  /** The first n directors have names that are texts, and other ones. */
  ghost predicate PassedOver(h: Host, ds: seq<Js>, name: Js, n: nat)
    requires n <= |ds|
  {
    forall j :: 0 <= j < n ==> OptionalProp(ds[j], "full_name").Str? && !NamedLike(h, ds[j], name)
  }

  /** The j-th director is the first whose name is no text, and none before has the name. */
  ghost predicate Stumbles(h: Host, ds: seq<Js>, name: Js, j: nat)
    requires j < |ds|
  {
    !OptionalProp(ds[j], "full_name").Str? && PassedOver(h, ds, name, j)
  }

  lemma PassedOverOneMore(h: Host, ds: seq<Js>, name: Js, n: nat)
    requires n < |ds| && PassedOver(h, ds[1..], name, n)
    requires OptionalProp(ds[0], "full_name").Str? && !NamedLike(h, ds[0], name)
    ensures PassedOver(h, ds, name, n + 1)
  {
    forall j | 1 <= j < n + 1 ensures OptionalProp(ds[j], "full_name").Str? && !NamedLike(h, ds[j], name) {
      assert ds[j] == ds[1..][j - 1];
    }
  }

  /** A search finds the first director of that name, or passes over all, unless a name is no text. */
  lemma {:induction false} FindDirectorFinds(h: Host, ds: seq<Js>, name: Js)
    ensures match FindDirector(h, ds, name)
      case Found(d) => NamedLike(h, d, name) && exists i :: 0 <= i < |ds| && ds[i] == d && PassedOver(h, ds, name, i)
      case NotFound => PassedOver(h, ds, name, |ds|) && (ds != [] ==> name.Str?)
      case SearchRaises => ds != [] && (name.Str? ==> exists j :: 0 <= j < |ds| && Stumbles(h, ds, name, j))
  {
    if ds != [] && OptionalProp(ds[0], "full_name").Str? && name.Str? && !NamedLike(h, ds[0], name) {
      FindDirectorFinds(h, ds[1..], name);
      match FindDirector(h, ds[1..], name)
      case Found(d) =>
        var i :| 0 <= i < |ds[1..]| && ds[1..][i] == d && PassedOver(h, ds[1..], name, i);
        assert ds[i + 1] == d;
        PassedOverOneMore(h, ds, name, i);
      case NotFound => PassedOverOneMore(h, ds, name, |ds| - 1);
      case SearchRaises =>
        var j :| 0 <= j < |ds[1..]| && Stumbles(h, ds[1..], name, j);
        assert ds[j + 1] == ds[1..][j];
        PassedOverOneMore(h, ds, name, j);
        assert Stumbles(h, ds, name, j + 1);
    } else if ds != [] && !OptionalProp(ds[0], "full_name").Str? {
      assert Stumbles(h, ds, name, 0);
    }
  }

  // ---- merging ----

  /** What merging makes of one part: two objects are united, anything else is replaced. */
  function MergedPart(a: App, b: App, k: Section): Js
    requires k in b
  {
    if b[k].Obj? && k in a && a[k].Obj? then Obj(a[k].fields + b[k].fields) else b[k]
  }

  /** The first update with some parts of the second merged in. */
  function PartlyMerged(a: App, b: App, parts: set<Section>): App {
    a + map k | k in parts && k in b :: MergedPart(a, b, k)
  }

  function DeepMerge(a: App, b: App): App {
    PartlyMerged(a, b, b.Keys)
  }

  /** The update that a result contributes, mapped against an application; None for an exception. */
  type Contributions = (nat, App) -> Option<App>

  function Contribution(h: Host, results: seq<ExtractionResult>, types: seq<DocType>, i: nat, app: App): Option<App> {
    if i >= |results| || !results[i].success || results[i].data.None? then Some(map[])
    else if i >= |types| then None
    else Mapper(h, i, types[i], results[i].data.value, app)
  }

  function ContributionsOf(h: Host, results: seq<ExtractionResult>, types: seq<DocType>): Contributions {
    (i: nat, app: App) => Contribution(h, results, types, i, app)
  }

  /** The accumulated update after n results: each mapper sees the application with it spread over. */
  function Accumulated(f: Contributions, app: App, n: nat): Option<App> {
    if n == 0 then Some(map[])
    else
      var merged := Accumulated(f, app, n - 1);
      if merged.None? then None
      else
        var partial := f(n - 1, app + merged.value);
        if partial.None? then None else Some(DeepMerge(merged.value, partial.value))
  }

  /** The plain way: each contribution is spread over the application before the next is mapped. */
  function Sequential(f: Contributions, app: App, n: nat): Option<App> {
    if n == 0 then Some(app)
    else
      var current := Sequential(f, app, n - 1);
      if current.None? then None
      else
        var partial := f(n - 1, current.value);
        if partial.None? then None else Some(current.value + partial.value)
  }

  /** What each contribution keeps holds after all of them. */
  lemma {:induction false} SequenceInvariant(f: Contributions, app: App, n: nat, inv: (nat, App) -> bool)
    requires inv(0, app) && Sequential(f, app, n).Some?
    requires forall i: nat, current ::
      inv(i, current) && f(i, current).Some? ==> inv(i + 1, current + f(i, current).value)
    ensures inv(n, Sequential(f, app, n).value)
  {
    if n > 0 {
      SequenceInvariant(f, app, n - 1, inv);
    }
  }

  /** The object has every field of the object it replaces, where it replaces one. */
  ghost predicate ExtendsPart(app: App, k: Section, v: Js) {
    v.Obj? && k in app && app[k].Obj? ==> app[k].fields.Keys <= v.fields.Keys
  }

  /** Each object in the update has every field of the object it was computed from. */
  ghost predicate Extends(app: App, partial: App) {
    forall k :: k in partial ==> ExtendsPart(app, k, partial[k])
  }

  ghost predicate AllExtend(f: Contributions) {
    forall i: nat, app :: f(i, app).Some? ==> Extends(app, f(i, app).value)
  }

  /** Uniting with an extension is the same as replacing by it. */
  lemma MergeOfExtension(app: App, merged: App, partial: App)
    requires Extends(app + merged, partial)
    ensures app + DeepMerge(merged, partial) == (app + merged) + partial
  {
    forall k | k in partial ensures MergedPart(merged, partial, k) == partial[k] {
      assert ExtendsPart(app + merged, k, partial[k]);
      UnionWithExtension(app, merged, k, partial[k]);
    }
    assert DeepMerge(merged, partial) == merged + partial;
  }

  lemma UnionWithExtension(app: App, merged: App, k: Section, v: Js)
    requires ExtendsPart(app + merged, k, v)
    ensures v.Obj? && k in merged && merged[k].Obj? ==> Obj(merged[k].fields + v.fields) == v
  {
    if v.Obj? && k in merged && merged[k].Obj? {
      assert (app + merged)[k] == merged[k];
      assert merged[k].fields + v.fields == v.fields;
    }
  }

  /**
   * Whenever contributions extend the objects they were computed from: spreading the accumulated
   * update over the application gives what spreading the contributions one after another gives,
   * and an exception ends the one computation exactly when it ends the other.
   */
  lemma {:induction false} AccumulationRefinesSequence(f: Contributions, app: App, n: nat)
    requires AllExtend(f)
    ensures Accumulated(f, app, n).None? <==> Sequential(f, app, n).None?
    ensures Accumulated(f, app, n).Some? ==> app + Accumulated(f, app, n).value == Sequential(f, app, n).value
  {
    if n > 0 {
      AccumulationRefinesSequence(f, app, n - 1);
      var merged := Accumulated(f, app, n - 1);
      if merged.Some? {
        var partial := f(n - 1, app + merged.value);
        if partial.Some? {
          MergeOfExtension(app, merged.value, partial.value);
        }
      }
    }
  }

  lemma RefinedExtends(app: App, found: Fields)
    ensures ExtendsPart(app, BusinessProfile, Refined(app, found))
  {
  }

  lemma PartExtends(app: App, update: Option<App>, k: Section, part: Part)
    requires update.Some? ==> Extends(app, update.value)
    requires part.Present? ==> ExtendsPart(app, k, part.value)
    ensures AddPart(update, k, part).Some? ==> Extends(app, AddPart(update, k, part).value)
  {
  }

  lemma ActivityExtends(data: Fields, app: App)
    requires MemorandumActivity(data, app).Present?
    ensures ExtendsPart(app, BusinessActivity, MemorandumActivity(data, app).value)
  {
  }

  lemma MemorandumExtends(h: Host, i: nat, data: Fields, app: App)
    requires MapMemorandum(h, i, data, app).Some?
    ensures Extends(app, MapMemorandum(h, i, data, app).value)
  {
    var found := map["legal_name" := Get(data, "company_name"),
                     "incorporation_date" := Get(data, "date_of_formation")];
    RefinedExtends(app, found);
    var u0 := Some(map[BusinessProfile := Refined(app, found)]);
    var addresses := MemorandumAddresses(h, i, data, app);
    PartExtends(app, u0, Addresses, addresses);
    var u1 := AddPart(u0, Addresses, addresses);
    var directors := MemorandumDirectors(h, i, data, app);
    PartExtends(app, u1, Directors, directors);
    var u2 := AddPart(u1, Directors, directors);
    var owners := MemorandumOwners(h, i, data, app);
    PartExtends(app, u2, Ubos, owners);
    var activity := MemorandumActivity(data, app);
    if activity.Present? {
      ActivityExtends(data, app);
    }
    PartExtends(app, AddPart(u2, Ubos, owners), BusinessActivity, activity);
  }

  lemma BankStatementExtends(h: Host, data: Fields, app: App)
    requires MapBankStatement(h, data, app).Some?
    ensures Extends(app, MapBankStatement(h, data, app).value)
  {
  }

  /** Every mapper's objects extend what they were computed from. */
  lemma MapperExtends(h: Host, i: nat, t: DocType, data: Fields, app: App)
    requires Mapper(h, i, t, data, app).Some?
    ensures Extends(app, Mapper(h, i, t, data, app).value)
  {
    match t
    case Memorandum => MemorandumExtends(h, i, data, app);
    case BankStatement => BankStatementExtends(h, data, app);
    case TradeLicense => RefinedExtends(app, map[
      "legal_name" := Get(data, "legal_name"), "trade_name" := Get(data, "trade_name"),
      "license_number" := Get(data, "license_number"), "license_expiry" := Get(data, "license_expiry"),
      "entity_type" := Get(data, "entity_type")]);
    case Incorporation => RefinedExtends(app, map[
      "legal_name" := Get(data, "company_name"), "incorporation_date" := Get(data, "incorporation_date")]);
    case _ =>
  }

  lemma ContributionsExtend(h: Host, results: seq<ExtractionResult>, types: seq<DocType>)
    ensures AllExtend(ContributionsOf(h, results, types))
  {
    var f := ContributionsOf(h, results, types);
    forall i: nat, app | f(i, app).Some? ensures Extends(app, f(i, app).value) {
      if i < |results| && results[i].success && results[i].data.Some? {
        MapperExtends(h, i, types[i], results[i].data.value, app);
      }
    }
  }

  /** For every list of results and every application, the fold is the plain sequential update. */
  lemma ExtractionIsSequential(h: Host, results: seq<ExtractionResult>, types: seq<DocType>, app: App)
    ensures var f := ContributionsOf(h, results, types);
            && (Accumulated(f, app, |results|).None? <==> Sequential(f, app, |results|).None?)
            && (Accumulated(f, app, |results|).Some? ==>
                  app + Accumulated(f, app, |results|).value == Sequential(f, app, |results|).value)
  {
    ContributionsExtend(h, results, types);
    AccumulationRefinesSequence(ContributionsOf(h, results, types), app, |results|);
  }

  // ---- which document a profile field comes from ----

  function ProfileField(app: App, name: string): Js {
    Get(FieldsOf(app, BusinessProfile), name)
  }

  /** What a document of this type states of a profile field, under whatever name it has there. */
  function Stated(t: DocType, data: Fields, name: string): Js {
    match t
    case TradeLicense => if name in LICENSE_FIELDS then Get(data, name) else Undefined
    case Memorandum =>
      if name == "legal_name" then Get(data, "company_name")
      else if name == "incorporation_date" then Get(data, "date_of_formation")
      else Undefined
    case Incorporation =>
      if name == "legal_name" then Get(data, "company_name")
      else if name == "incorporation_date" then Get(data, name)
      else Undefined
    case _ => Undefined
  }

  /** The account holder of a bank statement, who may stand in for the company's name. */
  function Suggested(t: DocType, data: Fields, name: string): Js {
    if t.BankStatement? && name == "legal_name" then OptionalProp(Get(data, "account"), "account_holder") else Undefined
  }

  lemma SpreadField(app: App, update: App, name: string)
    ensures ProfileField(app + update, name) ==
      if BusinessProfile in update then ProfileField(update, name) else ProfileField(app, name)
  {
  }

  lemma RefinedField(app: App, found: Fields, name: string)
    ensures Refined(app, found).Obj?
    ensures Get(Refined(app, found).fields, name) ==
      if name in found then Or(found[name], ProfileField(app, name)) else ProfileField(app, name)
  {
  }

  /** The field after a document that states this much and suggests that much. */
  function Settled(known: Js, stated: Js, suggested: Js): Js {
    if Truthy(stated) then stated else if !Truthy(known) && Truthy(suggested) then suggested else known
  }

  /** One mapper's effect on a profile field. */
  lemma ProfileStep(h: Host, i: nat, t: DocType, data: Fields, app: App, name: string)
    requires Mapper(h, i, t, data, app).Some?
    ensures ProfileField(app + Mapper(h, i, t, data, app).value, name) ==
      Settled(ProfileField(app, name), Stated(t, data, name), Suggested(t, data, name))
  {
    SpreadField(app, Mapper(h, i, t, data, app).value, name);
    match t
    case Memorandum => MemorandumStates(h, i, data, app, name);
    case TradeLicense => LicenseProfile(data, app, name);
    case Incorporation => IncorporationProfile(data, app, name);
    case BankStatement => StatementNames(h, data, app, name);
    case Passport => NotInPassport(h, i, data, app);
    case NationalId => assert BusinessProfile !in MapNationalId(h, data, app).value;
    case _ =>
  }

  lemma NotInPassport(h: Host, i: nat, data: Fields, app: App)
    requires MapPassport(h, i, data, app).Some?
    ensures BusinessProfile !in MapPassport(h, i, data, app).value
  {
  }

  lemma MemorandumStates(h: Host, i: nat, data: Fields, app: App, name: string)
    requires MapMemorandum(h, i, data, app).Some?
    ensures BusinessProfile in MapMemorandum(h, i, data, app).value
    ensures ProfileField(MapMemorandum(h, i, data, app).value, name) ==
      Settled(ProfileField(app, name), Stated(Memorandum, data, name), Undefined)
  {
    MemorandumProfile(h, i, data, app);
    RefinedField(app, map["legal_name" := Get(data, "company_name"),
                          "incorporation_date" := Get(data, "date_of_formation")], name);
  }

  lemma IncorporationProfile(data: Fields, app: App, name: string)
    ensures ProfileField(MapIncorporation(data, app).value, name) ==
      Settled(ProfileField(app, name), Stated(Incorporation, data, name), Undefined)
  {
    RefinedField(app, map["legal_name" := Get(data, "company_name"),
                          "incorporation_date" := Get(data, "incorporation_date")], name);
  }

  lemma LicenseProfile(data: Fields, app: App, name: string)
    ensures ProfileField(MapTradeLicense(data, app).value, name) ==
      Settled(ProfileField(app, name), Stated(TradeLicense, data, name), Undefined)
  {
    RefinedField(app, map[
      "legal_name" := Get(data, "legal_name"), "trade_name" := Get(data, "trade_name"),
      "license_number" := Get(data, "license_number"), "license_expiry" := Get(data, "license_expiry"),
      "entity_type" := Get(data, "entity_type")], name);
  }

  lemma StatementNames(h: Host, data: Fields, app: App, name: string)
    ensures MapBankStatement(h, data, app).Some?
    ensures ProfileField(app + MapBankStatement(h, data, app).value, name) ==
      Settled(ProfileField(app, name), Undefined, Suggested(BankStatement, data, name))
  {
    var u1 := AddPart(Some(map[]), TransferBehavior, StatementTransfer(h, data, app));
    assert u1.Some? && BusinessProfile !in u1.value;
    NameSuggested(data, app, u1.value, name);
    SpreadField(app, MapBankStatement(h, data, app).value, name);
  }

  lemma NameSuggested(data: Fields, app: App, update: App, name: string)
    requires BusinessProfile !in update
    ensures var after := AddPart(Some(update), BusinessProfile, StatementProfile(data, app));
            && after.Some?
            && (if BusinessProfile in after.value then ProfileField(after.value, name) else ProfileField(app, name)) ==
                 Settled(ProfileField(app, name), Undefined, Suggested(BankStatement, data, name))
  {
  }

  /** What a result with this number says, of a profile field; a skipped one says nothing. */
  type Sayings = nat -> Js

  function StatedBy(results: seq<ExtractionResult>, types: seq<DocType>, i: nat, name: string): Js {
    if i < |results| && i < |types| && results[i].success && results[i].data.Some?
    then Stated(types[i], results[i].data.value, name) else Undefined
  }

  function SuggestedBy(results: seq<ExtractionResult>, types: seq<DocType>, i: nat, name: string): Js {
    if i < |results| && i < |types| && results[i].success && results[i].data.Some?
    then Suggested(types[i], results[i].data.value, name) else Undefined
  }

  function StatedIn(results: seq<ExtractionResult>, types: seq<DocType>, name: string): Sayings {
    (i: nat) => StatedBy(results, types, i, name)
  }

  function SuggestedIn(results: seq<ExtractionResult>, types: seq<DocType>, name: string): Sayings {
    (i: nat) => SuggestedBy(results, types, i, name)
  }

  /** Among the first n, i is the last to say something. */
  ghost predicate LastSaid(says: Sayings, n: nat, i: nat) {
    i < n && Truthy(says(i)) && forall j: nat :: i < j < n ==> !Truthy(says(j))
  }

  /** Among the first n, i is the first to say something. */
  ghost predicate FirstSaid(says: Sayings, n: nat, i: nat) {
    i < n && Truthy(says(i)) && forall j: nat :: j < i ==> !Truthy(says(j))
  }

  ghost predicate NeverSaid(says: Sayings, n: nat) {
    forall i: nat :: i < n ==> !Truthy(says(i))
  }

  /**
   * Where the value of a profile field comes from after n results: the last document that states it;
   * else the application; else, for the name of the company, the first account holder.
   */
  ghost predicate ComesFrom(stated: Sayings, suggested: Sayings, n: nat, known: Js, value: Js) {
    if !NeverSaid(stated, n) then exists i: nat :: LastSaid(stated, n, i) && value == stated(i)
    else if Truthy(known) || NeverSaid(suggested, n) then value == known
    else exists i: nat :: FirstSaid(suggested, n, i) && value == suggested(i)
  }

  /** A result that says nothing changes neither what was said last nor whether anything was. */
  lemma SilentNext(says: Sayings, n: nat)
    requires !Truthy(says(n))
    ensures NeverSaid(says, n + 1) <==> NeverSaid(says, n)
    ensures forall i: nat :: LastSaid(says, n, i) ==> LastSaid(says, n + 1, i)
  {
  }

  lemma StatedNext(stated: Sayings, suggested: Sayings, n: nat, known: Js, before: Js, value: Js)
    requires ComesFrom(stated, suggested, n, known, before) && value == Settled(before, stated(n), suggested(n))
    requires !NeverSaid(stated, n + 1)
    ensures ComesFrom(stated, suggested, n + 1, known, value)
  {
    if Truthy(stated(n)) {
      assert LastSaid(stated, n + 1, n);
    } else {
      SilentNext(stated, n);
      var i: nat :| LastSaid(stated, n, i) && before == stated(i);
      assert LastSaid(stated, n + 1, i) && Truthy(before) && value == before;
    }
  }

  lemma SuggestedNext(stated: Sayings, suggested: Sayings, n: nat, known: Js, before: Js, value: Js)
    requires ComesFrom(stated, suggested, n, known, before) && value == Settled(before, stated(n), suggested(n))
    requires NeverSaid(stated, n + 1) && !Truthy(known)
    ensures ComesFrom(stated, suggested, n + 1, known, value)
  {
    assert NeverSaid(stated, n);
    if !NeverSaid(suggested, n) {
      var i: nat :| FirstSaid(suggested, n, i) && before == suggested(i);
      assert FirstSaid(suggested, n + 1, i);
    } else if Truthy(suggested(n)) {
      assert FirstSaid(suggested, n + 1, n);
    }
  }

  lemma ComesFromNext(stated: Sayings, suggested: Sayings, n: nat, known: Js, before: Js, value: Js)
    requires ComesFrom(stated, suggested, n, known, before) && value == Settled(before, stated(n), suggested(n))
    ensures ComesFrom(stated, suggested, n + 1, known, value)
  {
    if !NeverSaid(stated, n + 1) {
      StatedNext(stated, suggested, n, known, before, value);
    } else if !Truthy(known) {
      SuggestedNext(stated, suggested, n, known, before, value);
    }
  }

  lemma ContributionProfile(h: Host, results: seq<ExtractionResult>, types: seq<DocType>, i: nat, app: App,
                            name: string)
    requires Contribution(h, results, types, i, app).Some?
    ensures ProfileField(app + Contribution(h, results, types, i, app).value, name) ==
      Settled(ProfileField(app, name), StatedBy(results, types, i, name), SuggestedBy(results, types, i, name))
  {
    if i < |results| && results[i].success && results[i].data.Some? {
      ProfileStep(h, i, types[i], results[i].data.value, app, name);
    } else {
      SpreadField(app, map[], name);
    }
  }

  lemma ContributionComesFrom(h: Host, results: seq<ExtractionResult>, types: seq<DocType>, i: nat, current: App,
                              known: Js, name: string)
    requires Contribution(h, results, types, i, current).Some?
    requires ComesFrom(StatedIn(results, types, name), SuggestedIn(results, types, name), i, known,
                       ProfileField(current, name))
    ensures ComesFrom(StatedIn(results, types, name), SuggestedIn(results, types, name), i + 1, known,
                      ProfileField(current + Contribution(h, results, types, i, current).value, name))
  {
    var after := current + Contribution(h, results, types, i, current).value;
    ContributionProfile(h, results, types, i, current, name);
    ComesFromNext(StatedIn(results, types, name), SuggestedIn(results, types, name), i, known,
                  ProfileField(current, name), ProfileField(after, name));
  }

  lemma SequenceProfile(h: Host, results: seq<ExtractionResult>, types: seq<DocType>, app: App, n: nat, name: string)
    requires Sequential(ContributionsOf(h, results, types), app, n).Some?
    ensures ComesFrom(StatedIn(results, types, name), SuggestedIn(results, types, name), n, ProfileField(app, name),
                      ProfileField(Sequential(ContributionsOf(h, results, types), app, n).value, name))
  {
    var f, known := ContributionsOf(h, results, types), ProfileField(app, name);
    var stated, suggested := StatedIn(results, types, name), SuggestedIn(results, types, name);
    ghost var settled := (i: nat, current: App) =>
      ComesFrom(stated, suggested, i, known, ProfileField(current, name));
    forall i: nat, current | settled(i, current) && f(i, current).Some?
      ensures settled(i + 1, current + f(i, current).value)
    {
      ContributionComesFrom(h, results, types, i, current, known, name);
    }
    SequenceInvariant(f, app, n, settled);
  }

  /**
   * For every list of results and every application: after the whole fold each profile field has the
   * value that the last document to state it gives; if none does, the application's; and only a company
   * that is named by neither gets the name of an account holder, that of the first bank statement with one.
   */
  lemma ProfileComesFrom(h: Host, results: seq<ExtractionResult>, types: seq<DocType>, app: App, name: string)
    requires Accumulated(ContributionsOf(h, results, types), app, |results|).Some?
    ensures ComesFrom(StatedIn(results, types, name), SuggestedIn(results, types, name), |results|,
              ProfileField(app, name),
              ProfileField(app + Accumulated(ContributionsOf(h, results, types), app, |results|).value, name))
  {
    ExtractionIsSequential(h, results, types, app);
    SequenceProfile(h, results, types, app, |results|, name);
  }

  // ---- what extraction never overwrites ----

  /** The same person: id and name agree. */
  predicate SamePerson(a: Js, b: Js) {
    OptionalProp(a, "id") == OptionalProp(b, "id") && OptionalProp(a, "full_name") == OptionalProp(b, "full_name")
  }

  /**
   * From one application to a later one: filled address and owner lists are the same, a filled
   * director list has the same people in the same places, and no profile field lost its value.
   */
  ghost predicate Keeps(a: App, b: App) {
    && (forall k :: (k == Addresses || k == Ubos) && ItemsOf(a, k) != [] ==> k in b && b[k] == a[k])
    && (ItemsOf(a, Directors) != [] ==>
          && |ItemsOf(b, Directors)| == |ItemsOf(a, Directors)|
          && forall i :: 0 <= i < |ItemsOf(a, Directors)| ==>
               SamePerson(ItemsOf(a, Directors)[i], ItemsOf(b, Directors)[i]))
    && (forall name :: Truthy(Get(FieldsOf(a, BusinessProfile), name)) ==>
          Truthy(Get(FieldsOf(b, BusinessProfile), name)))
  }

  lemma {:induction false} UpdatedDirectorsSame(ds: seq<Js>, id: Js, found: Fields)
    requires "id" !in found && "full_name" !in found
    ensures forall i :: 0 <= i < |ds| ==> SamePerson(ds[i], UpdateDirectors(ds, id, found)[i])
  {
    if ds != [] {
      UpdatedDirectorsSame(ds[1..], id, found);
      forall i | 1 <= i < |ds| ensures SamePerson(ds[i], UpdateDirectors(ds, id, found)[i]) {
        assert ds[i] == ds[1..][i - 1];
      }
    }
  }

  /** The second director is the first with this field refined if it has the given id, and else the same. */
  predicate RefinedWhere(d: Js, r: Js, id: Js, found: Fields, name: string) {
    if d.Obj? && Get(d.fields, "id") == id
    then
      var known := Get(d.fields, name);
      r.Obj? && Get(r.fields, name) == if name in found then Or(found[name], known) else known
    else r == d
  }

  /** Of the directors with the given id the named fields are refined; nothing else changes. */
  lemma {:induction false} UpdatedDirectorAt(ds: seq<Js>, id: Js, found: Fields, i: nat, name: string)
    requires i < |ds|
    ensures RefinedWhere(ds[i], UpdateDirectors(ds, id, found)[i], id, found, name)
  {
    if i > 0 {
      UpdatedDirectorAt(ds[1..], id, found, i - 1, name);
    }
  }

  /**
   * A passport that names a known director refines birth date, passport number and nationality of
   * the directors with this director's id, and leaves every other director as he is.
   */
  lemma PassportRefines(h: Host, i: nat, data: Fields, app: App, j: nat, name: string)
    requires Truthy(Get(data, "personal_info")) && j < |ItemsOf(app, Directors)|
    requires FindDirector(h, ItemsOf(app, Directors), FullName(h, Get(data, "personal_info"))).Found?
    ensures var after := MapPassport(h, i, data, app);
            && after.Some? && after.value.Keys == {Directors}
            && |ItemsOf(after.value, Directors)| == |ItemsOf(app, Directors)|
            && RefinedWhere(ItemsOf(app, Directors)[j], ItemsOf(after.value, Directors)[j],
                            KnownId(h, data, app), PassportFields(data), name)
  {
    UpdatedDirectorAt(ItemsOf(app, Directors), KnownId(h, data, app), PassportFields(data), j, name);
  }

  /** What a passport says of a director, under the director's field names. */
  function PassportFields(data: Fields): Fields {
    var personal := Get(data, "personal_info");
    map["nationality" := OptionalProp(personal, "nationality"),
        "date_of_birth" := OptionalProp(personal, "date_of_birth"),
        "passport_number" := OptionalProp(Get(data, "document_info"), "id_number")]
  }

  /** The id of the director whom the passport names. */
  function KnownId(h: Host, data: Fields, app: App): Js
    requires FindDirector(h, ItemsOf(app, Directors), FullName(h, Get(data, "personal_info"))).Found?
  {
    OptionalProp(FindDirector(h, ItemsOf(app, Directors), FullName(h, Get(data, "personal_info"))).director, "id")
  }

  /** Replacing this part of the application by this value keeps what must be kept. */
  ghost predicate SafePart(app: App, k: Section, v: Js) {
    match k
    case Addresses => ItemsOf(app, Addresses) == []
    case Ubos => ItemsOf(app, Ubos) == []
    case Directors => ItemsOf(app, Directors) == [] ||
      (v.Arr? && |v.items| == |ItemsOf(app, Directors)| &&
       forall i :: 0 <= i < |v.items| ==> SamePerson(ItemsOf(app, Directors)[i], v.items[i]))
    case BusinessProfile =>
      v.Obj? && forall name :: Truthy(Get(FieldsOf(app, BusinessProfile), name)) ==> Truthy(Get(v.fields, name))
    case _ => true
  }

  ghost predicate SafeUpdate(app: App, update: App) {
    forall k :: k in update ==> SafePart(app, k, update[k])
  }

  lemma SafeUpdateKeeps(app: App, update: App)
    requires SafeUpdate(app, update)
    ensures Keeps(app, app + update)
  {
    var after := app + update;
    forall k | k in update && (k == Addresses || k == Ubos) ensures ItemsOf(app, k) == [] {
      assert SafePart(app, k, update[k]);
    }
    if Directors in update {
      assert SafePart(app, Directors, update[Directors]);
    }
    if BusinessProfile in update {
      assert SafePart(app, BusinessProfile, update[BusinessProfile]);
    }
  }

  lemma RefinedSafe(app: App, found: Fields)
    ensures SafePart(app, BusinessProfile, Refined(app, found))
  {
  }

  lemma PartSafe(app: App, update: Option<App>, k: Section, part: Part)
    requires update.Some? ==> SafeUpdate(app, update.value)
    requires part.Present? ==> SafePart(app, k, part.value)
    ensures AddPart(update, k, part).Some? ==> SafeUpdate(app, AddPart(update, k, part).value)
  {
  }

  lemma MemorandumSafe(h: Host, i: nat, data: Fields, app: App)
    requires MapMemorandum(h, i, data, app).Some?
    ensures SafeUpdate(app, MapMemorandum(h, i, data, app).value)
  {
    var found := map["legal_name" := Get(data, "company_name"),
                     "incorporation_date" := Get(data, "date_of_formation")];
    RefinedSafe(app, found);
    var u0 := Some(map[BusinessProfile := Refined(app, found)]);
    var addresses := MemorandumAddresses(h, i, data, app);
    PartSafe(app, u0, Addresses, addresses);
    var u1 := AddPart(u0, Addresses, addresses);
    var directors := MemorandumDirectors(h, i, data, app);
    PartSafe(app, u1, Directors, directors);
    var u2 := AddPart(u1, Directors, directors);
    var owners := MemorandumOwners(h, i, data, app);
    PartSafe(app, u2, Ubos, owners);
    PartSafe(app, AddPart(u2, Ubos, owners), BusinessActivity, MemorandumActivity(data, app));
  }

  lemma DirectorUpdateSafe(app: App, id: Js, found: Fields)
    requires "id" !in found && "full_name" !in found
    ensures SafePart(app, Directors, Arr(UpdateDirectors(ItemsOf(app, Directors), id, found)))
  {
    UpdatedDirectorsSame(ItemsOf(app, Directors), id, found);
  }

  lemma PassportSafe(h: Host, i: nat, data: Fields, app: App)
    requires MapPassport(h, i, data, app).Some?
    ensures SafeUpdate(app, MapPassport(h, i, data, app).value)
  {
    var personal, docInfo := Get(data, "personal_info"), Get(data, "document_info");
    var ds := ItemsOf(app, Directors);
    if Truthy(personal) && FindDirector(h, ds, FullName(h, personal)).Found? {
      var d := FindDirector(h, ds, FullName(h, personal)).director;
      DirectorUpdateSafe(app, OptionalProp(d, "id"), map[
        "nationality" := OptionalProp(personal, "nationality"),
        "date_of_birth" := OptionalProp(personal, "date_of_birth"),
        "passport_number" := OptionalProp(docInfo, "id_number")]);
    }
  }

  lemma NationalIdSafe(h: Host, data: Fields, app: App)
    requires MapNationalId(h, data, app).Some?
    ensures SafeUpdate(app, MapNationalId(h, data, app).value)
  {
    var personal, ds := Get(data, "personal_info"), ItemsOf(app, Directors);
    if Truthy(personal) && FindDirector(h, ds, FullName(h, personal)).Found? {
      var d := FindDirector(h, ds, FullName(h, personal)).director;
      DirectorUpdateSafe(app, OptionalProp(d, "id"), map["nationality" := OptionalProp(personal, "nationality")]);
    }
  }

  lemma BankStatementSafe(h: Host, data: Fields, app: App)
    requires MapBankStatement(h, data, app).Some?
    ensures SafeUpdate(app, MapBankStatement(h, data, app).value)
  {
  }

  lemma TradeLicenseSafe(data: Fields, app: App)
    ensures SafeUpdate(app, MapTradeLicense(data, app).value)
  {
    RefinedSafe(app, map[
      "legal_name" := Get(data, "legal_name"), "trade_name" := Get(data, "trade_name"),
      "license_number" := Get(data, "license_number"), "license_expiry" := Get(data, "license_expiry"),
      "entity_type" := Get(data, "entity_type")]);
  }

  lemma ContributionKeeps(h: Host, results: seq<ExtractionResult>, types: seq<DocType>, i: nat, app: App)
    requires Contribution(h, results, types, i, app).Some?
    ensures Keeps(app, app + Contribution(h, results, types, i, app).value)
  {
    var update := Contribution(h, results, types, i, app).value;
    if i < |results| && results[i].success && results[i].data.Some? {
      var data := results[i].data.value;
      match types[i]
      case Memorandum => MemorandumSafe(h, i, data, app);
      case Passport => PassportSafe(h, i, data, app);
      case NationalId => NationalIdSafe(h, data, app);
      case BankStatement => BankStatementSafe(h, data, app);
      case TradeLicense => TradeLicenseSafe(data, app);
      case Incorporation => RefinedSafe(app, map[
        "legal_name" := Get(data, "company_name"), "incorporation_date" := Get(data, "incorporation_date")]);
      case _ =>
    }
    SafeUpdateKeeps(app, update);
  }

  lemma KeepsTransitive(a: App, b: App, c: App)
    requires Keeps(a, b) && Keeps(b, c)
    ensures Keeps(a, c)
  {
  }

  ghost predicate AllKeep(f: Contributions) {
    forall i: nat, app :: f(i, app).Some? ==> Keeps(app, app + f(i, app).value)
  }

  lemma {:induction false} SequenceKeeps(f: Contributions, app: App, n: nat)
    requires AllKeep(f) && Sequential(f, app, n).Some?
    ensures Keeps(app, Sequential(f, app, n).value)
  {
    if n > 0 {
      SequenceKeeps(f, app, n - 1);
      var current := Sequential(f, app, n - 1).value;
      KeepsTransitive(app, current, current + f(n - 1, current).value);
    }
  }

  /**
   * Whatever the results say: spreading the accumulated update over the application keeps filled
   * lists, the people in a filled director list, and every value of the profile.
   */
  lemma ExtractionKeeps(h: Host, results: seq<ExtractionResult>, types: seq<DocType>, app: App)
    requires Accumulated(ContributionsOf(h, results, types), app, |results|).Some?
    ensures Keeps(app, app + Accumulated(ContributionsOf(h, results, types), app, |results|).value)
  {
    var f := ContributionsOf(h, results, types);
    forall i: nat, current | f(i, current).Some? ensures Keeps(current, current + f(i, current).value) {
      ContributionKeeps(h, results, types, i, current);
    }
    ExtractionIsSequential(h, results, types, app);
    SequenceKeeps(f, app, |results|);
  }

  // ---- the loops ----

  lemma MergeOneMore(a: App, b: App, parts: set<Section>, k: Section)
    requires k in b
    ensures PartlyMerged(a, b, parts + {k}) == PartlyMerged(a, b, parts)[k := MergedPart(a, b, k)]
  {
  }

  /** Merges part by part, in whatever order the parts are listed. */
  method MergeDeeply(a: App, b: App) returns (result: App)
    ensures result == DeepMerge(a, b)
  {
    result := a;
    var todo := b.Keys;
    while todo != {}
      invariant todo <= b.Keys
      invariant result == PartlyMerged(a, b, b.Keys - todo)
      decreases todo
    {
      var k :| k in todo;
      MergeOneMore(a, b, b.Keys - todo, k);
      assert b.Keys - (todo - {k}) == (b.Keys - todo) + {k};
      if b[k].Obj? && k in a && a[k].Obj? {
        result := result[k := Obj(a[k].fields + b[k].fields)];
      } else {
        result := result[k := b[k]];
      }
      todo := todo - {k};
    }
    assert b.Keys - todo == b.Keys;
  }

  /** The fold over n results; None when a mapper raises. */
  method Accumulate(f: Contributions, app: App, n: nat) returns (update: Option<App>)
    requires AllExtend(f)
    ensures update == Accumulated(f, app, n)
    ensures update.Some? ==> Sequential(f, app, n) == Some(app + update.value)
  {
    var merged := map[];
    for i := 0 to n
      invariant Accumulated(f, app, i) == Some(merged)
    {
      var partial := f(i, app + merged);
      if partial.None? {
        RaisedStaysRaised(f, app, i + 1, n);
        return None;
      }
      merged := MergeDeeply(merged, partial.value);
    }
    AccumulationRefinesSequence(f, app, n);
    update := Some(merged);
  }

  /** The update to send on: spread over the application, it is the sequence of all contributions. */
  method MapExtraction(h: Host, results: seq<ExtractionResult>, types: seq<DocType>, app: App)
      returns (update: Option<App>)
    ensures update.Some? ==>
      Sequential(ContributionsOf(h, results, types), app, |results|) == Some(app + update.value)
    ensures update.None? ==> Sequential(ContributionsOf(h, results, types), app, |results|).None?
    ensures update.Some? ==> Keeps(app, app + update.value)
  {
    ContributionsExtend(h, results, types);
    update := Accumulate(ContributionsOf(h, results, types), app, |results|);
    AccumulationRefinesSequence(ContributionsOf(h, results, types), app, |results|);
    if update.Some? {
      ExtractionKeeps(h, results, types, app);
    }
  }

  lemma {:induction false} RaisedStaysRaised(f: Contributions, app: App, m: nat, n: nat)
    requires m <= n && Accumulated(f, app, m).None?
    ensures Accumulated(f, app, n).None?
    decreases n
  {
    if m < n {
      RaisedStaysRaised(f, app, m, n - 1);
    }
  }
}
