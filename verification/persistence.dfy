/** Persisted user settings: the five local-storage slots behind the
    origin/destination pickers, the share template and the auto-detect flag,
    read once at start-up and written through guarded setters. */
module Persistence {
  import opened Strings

  const OriginKey := "ontrack_origin"
  const DestKey := "ontrack_dest"
  const TemplateKey := "ontrack_template"
  const AutoDetectOriginKey := "ontrack_auto_detect_origin"
  const DefaultDestKey := "ontrack_default_dest"

  /** The default share template, character for character as the program
      spells it (the three characters between the placeholders are a
      mis-decoded rendering of a single CJK character). */
  const DefaultTemplate := "{adjusted_time}\U{00E5}\U{02C6}\U{00B0}{dest}"

  const MaxIdLength := 10

  /** Browser local storage: a missing key is simply absent from the map. */
  type Store = map<string, string>

  /** The value read for a key, with a missing entry read as "" (the program
      reads a missing item as null and then falls back to ""). */
  function Read(store: Store, key: string): (v: string)
    ensures key !in store ==> v == ""
    ensures key in store ==> v == store[key]
  {
    if key in store then store[key] else ""
  }

  /** Scans the id from the front, stopping at the first character that is
      not allowed. */
  function AllIdChars(id: string): (b: bool)
    ensures b <==> forall i :: 0 <= i < |id| ==> IsIdChar(id[i])
  {
    if id == [] then true
    else IsIdChar(id[0]) && AllIdChars(id[1..])
  }

  /** A station id is valid iff it is built from ASCII letters, digits and
      '-' only and has at most ten characters; the empty id is valid. */
  function IsValidStationId(id: string): (b: bool)
    ensures b <==> |id| <= MaxIdLength && forall i :: 0 <= i < |id| ==> IsIdChar(id[i])
  {
    AllIdChars(id) && |id| <= MaxIdLength
  }

  /** The stored id for a key when it is valid, and "" when it is missing or
      invalid. */
  function ValidatedStationId(store: Store, key: string): (id: string)
    ensures IsValidStationId(id)
    ensures key in store && IsValidStationId(store[key]) ==> id == store[key]
    ensures key !in store || !IsValidStationId(store[key]) ==> id == ""
  {
    var v := Read(store, key);
    if IsValidStationId(v) then v else ""
  }

  datatype Settings = Settings(
    originId: string,
    destId: string,
    template: string,
    autoDetectOrigin: bool,
    defaultDestId: string)

  /** The in-memory settings together with the store they are written to. */
  datatype Persisted = Persisted(settings: Settings, store: Store)

  /** The settings the hook starts with when it reads a given store. */
  function Init(store: Store): (s: Settings)
    ensures IsValidStationId(s.originId) && IsValidStationId(s.destId) && IsValidStationId(s.defaultDestId)
    ensures s.originId == ValidatedStationId(store, OriginKey)
    ensures s.destId == ValidatedStationId(store, DestKey)
    ensures s.defaultDestId == ValidatedStationId(store, DefaultDestKey)
    ensures s.template != ""
    ensures TemplateKey in store && store[TemplateKey] != "" ==> s.template == store[TemplateKey]
    ensures TemplateKey !in store || store[TemplateKey] == "" ==> s.template == DefaultTemplate
    ensures s.autoDetectOrigin <==> AutoDetectOriginKey in store && store[AutoDetectOriginKey] == "true"
  {
    var stored := Read(store, TemplateKey);
    Settings(
      ValidatedStationId(store, OriginKey),
      ValidatedStationId(store, DestKey),
      if stored != "" then stored else DefaultTemplate,
      Read(store, AutoDetectOriginKey) == "true",
      ValidatedStationId(store, DefaultDestKey))
  }

  /** The hook freshly loaded from a store. */
  function Load(store: Store): Persisted {
    Persisted(Init(store), store)
  }

  /** Every station id held in memory passes the validator. */
  predicate IdsValid(s: Settings) {
    IsValidStationId(s.originId) && IsValidStationId(s.destId) && IsValidStationId(s.defaultDestId)
  }

  /** The in-memory settings are what a reload of the store would produce. */
  predicate InSync(p: Persisted) {
    Init(p.store) == p.settings
  }

  function SaveOrigin(p: Persisted, id: string): (r: Persisted)
    ensures !IsValidStationId(id) ==> r == p
    ensures IsValidStationId(id) ==> r.settings == p.settings.(originId := id)
    ensures IsValidStationId(id) ==> r.store == p.store[OriginKey := id]
  {
    if !IsValidStationId(id) then p
    else Persisted(p.settings.(originId := id), p.store[OriginKey := id])
  }

  function SaveDest(p: Persisted, id: string): (r: Persisted)
    ensures !IsValidStationId(id) ==> r == p
    ensures IsValidStationId(id) ==> r.settings == p.settings.(destId := id)
    ensures IsValidStationId(id) ==> r.store == p.store[DestKey := id]
  {
    if !IsValidStationId(id) then p
    else Persisted(p.settings.(destId := id), p.store[DestKey := id])
  }

  function SaveDefaultDest(p: Persisted, id: string): (r: Persisted)
    ensures !IsValidStationId(id) ==> r == p
    ensures IsValidStationId(id) ==> r.settings == p.settings.(defaultDestId := id)
    ensures IsValidStationId(id) ==> r.store == p.store[DefaultDestKey := id]
  {
    if !IsValidStationId(id) then p
    else Persisted(p.settings.(defaultDestId := id), p.store[DefaultDestKey := id])
  }

  /** Any template is accepted, the empty one included. */
  function SaveTemplate(p: Persisted, tpl: string): (r: Persisted)
    ensures r.settings == p.settings.(template := tpl)
    ensures r.store == p.store[TemplateKey := tpl]
  {
    Persisted(p.settings.(template := tpl), p.store[TemplateKey := tpl])
  }

  function ResetTemplate(p: Persisted): (r: Persisted)
    ensures r.settings.template == DefaultTemplate
    ensures r.settings == p.settings.(template := DefaultTemplate)
    ensures r.store == p.store[TemplateKey := DefaultTemplate]
  {
    SaveTemplate(p, DefaultTemplate)
  }

  /** JavaScript's String() of a boolean. */
  function BoolText(b: bool): (t: string)
    ensures t == "true" <==> b
  {
    if b then "true" else "false"
  }

  function SaveAutoDetectOrigin(p: Persisted, value: bool): (r: Persisted)
    ensures r.settings == p.settings.(autoDetectOrigin := value)
    ensures r.store == p.store[AutoDetectOriginKey := BoolText(value)]
  {
    Persisted(p.settings.(autoDetectOrigin := value), p.store[AutoDetectOriginKey := BoolText(value)])
  }

  /** Whatever the store holds, a fresh load is in sync and holds only valid ids. */
  lemma LoadIsInSync(store: Store)
    ensures InSync(Load(store)) && IdsValid(Load(store).settings)
  {
  }

  /** A valid saved origin is read back by the next load; other slots keep
      what they held. */
  lemma {:induction false} SaveOriginRoundTrip(p: Persisted, id: string)
    requires IsValidStationId(id)
    ensures Init(SaveOrigin(p, id).store).originId == id
    ensures Init(SaveOrigin(p, id).store).destId == Init(p.store).destId
    ensures Init(SaveOrigin(p, id).store).template == Init(p.store).template
  {
    var s := SaveOrigin(p, id).store;
    assert Read(s, OriginKey) == id;
    assert Read(s, DestKey) == Read(p.store, DestKey);
    assert Read(s, TemplateKey) == Read(p.store, TemplateKey);
  }

  lemma {:induction false} SaveDestRoundTrip(p: Persisted, id: string)
    requires IsValidStationId(id)
    ensures Init(SaveDest(p, id).store).destId == id
  {
    assert Read(SaveDest(p, id).store, DestKey) == id;
  }

  lemma {:induction false} SaveDefaultDestRoundTrip(p: Persisted, id: string)
    requires IsValidStationId(id)
    ensures Init(SaveDefaultDest(p, id).store).defaultDestId == id
  {
    assert Read(SaveDefaultDest(p, id).store, DefaultDestKey) == id;
  }

  /** The flag written as text comes back as the same flag. */
  lemma {:induction false} SaveAutoDetectOriginRoundTrip(p: Persisted, value: bool)
    ensures Init(SaveAutoDetectOrigin(p, value).store).autoDetectOrigin == value
  {
    assert Read(SaveAutoDetectOrigin(p, value).store, AutoDetectOriginKey) == BoolText(value);
  }

  /** A non-empty template comes back on reload; so does the default after a reset. */
  lemma {:induction false} SaveTemplateRoundTrip(p: Persisted, tpl: string)
    requires tpl != ""
    ensures Init(SaveTemplate(p, tpl).store).template == tpl
    ensures Init(ResetTemplate(p).store).template == DefaultTemplate
  {
    assert Read(SaveTemplate(p, tpl).store, TemplateKey) == tpl;
    assert Read(ResetTemplate(p).store, TemplateKey) == DefaultTemplate;
  }

  /** Each setter keeps memory and store in sync and keeps the ids valid;
      the one exception is an empty template (see EmptyTemplateDrifts). */
  lemma {:induction false} SettersPreserveSync(p: Persisted, id: string, tpl: string, flag: bool)
    requires InSync(p)
    requires tpl != ""
    ensures InSync(SaveOrigin(p, id)) && InSync(SaveDest(p, id)) && InSync(SaveDefaultDest(p, id))
    ensures InSync(SaveTemplate(p, tpl)) && InSync(ResetTemplate(p)) && InSync(SaveAutoDetectOrigin(p, flag))
    ensures IdsValid(SaveOrigin(p, id).settings) && IdsValid(SaveDest(p, id).settings)
    ensures IdsValid(SaveDefaultDest(p, id).settings)
  {
    if IsValidStationId(id) {
      SaveOriginSync(p, id);
      SaveDestSync(p, id);
      SaveDefaultDestSync(p, id);
    }
    SaveTemplateSync(p, tpl);
    SaveTemplateSync(p, DefaultTemplate);
    SaveAutoDetectSync(p, flag);
  }

  lemma {:induction false} SaveOriginSync(p: Persisted, id: string)
    requires InSync(p) && IsValidStationId(id)
    ensures InSync(SaveOrigin(p, id))
  {
    var s := SaveOrigin(p, id).store;
    assert Read(s, OriginKey) == id;
    assert Read(s, DestKey) == Read(p.store, DestKey);
    assert Read(s, TemplateKey) == Read(p.store, TemplateKey);
    assert Read(s, AutoDetectOriginKey) == Read(p.store, AutoDetectOriginKey);
    assert Read(s, DefaultDestKey) == Read(p.store, DefaultDestKey);
  }

  lemma {:induction false} SaveDestSync(p: Persisted, id: string)
    requires InSync(p) && IsValidStationId(id)
    ensures InSync(SaveDest(p, id))
  {
    var s := SaveDest(p, id).store;
    assert Read(s, OriginKey) == Read(p.store, OriginKey);
    assert Read(s, DestKey) == id;
    assert Read(s, TemplateKey) == Read(p.store, TemplateKey);
    assert Read(s, AutoDetectOriginKey) == Read(p.store, AutoDetectOriginKey);
    assert Read(s, DefaultDestKey) == Read(p.store, DefaultDestKey);
  }

  lemma {:induction false} SaveDefaultDestSync(p: Persisted, id: string)
    requires InSync(p) && IsValidStationId(id)
    ensures InSync(SaveDefaultDest(p, id))
  {
    var s := SaveDefaultDest(p, id).store;
    assert Read(s, OriginKey) == Read(p.store, OriginKey);
    assert Read(s, DestKey) == Read(p.store, DestKey);
    assert Read(s, TemplateKey) == Read(p.store, TemplateKey);
    assert Read(s, AutoDetectOriginKey) == Read(p.store, AutoDetectOriginKey);
    assert Read(s, DefaultDestKey) == id;
  }

  lemma {:induction false} SaveTemplateSync(p: Persisted, tpl: string)
    requires InSync(p) && tpl != ""
    ensures InSync(SaveTemplate(p, tpl))
  {
    var s := SaveTemplate(p, tpl).store;
    assert Read(s, OriginKey) == Read(p.store, OriginKey);
    assert Read(s, DestKey) == Read(p.store, DestKey);
    assert Read(s, TemplateKey) == tpl;
    assert Read(s, AutoDetectOriginKey) == Read(p.store, AutoDetectOriginKey);
    assert Read(s, DefaultDestKey) == Read(p.store, DefaultDestKey);
  }

  lemma {:induction false} SaveAutoDetectSync(p: Persisted, flag: bool)
    requires InSync(p)
    ensures InSync(SaveAutoDetectOrigin(p, flag))
  {
    var s := SaveAutoDetectOrigin(p, flag).store;
    assert Read(s, OriginKey) == Read(p.store, OriginKey);
    assert Read(s, DestKey) == Read(p.store, DestKey);
    assert Read(s, TemplateKey) == Read(p.store, TemplateKey);
    assert Read(s, AutoDetectOriginKey) == BoolText(flag);
    assert Read(s, DefaultDestKey) == Read(p.store, DefaultDestKey);
  }

  /** Saving the empty template shows an empty template now, but the next
      load falls back to the default: memory and store drift apart. */
  lemma {:induction false} EmptyTemplateDrifts(p: Persisted)
    ensures SaveTemplate(p, "").settings.template == ""
    ensures Init(SaveTemplate(p, "").store).template == DefaultTemplate
    ensures !InSync(SaveTemplate(p, ""))
  {
    assert Read(SaveTemplate(p, "").store, TemplateKey) == "";
  }

  /** Ids the validator accepts: the empty id, mixed case with a dash, and
      exactly ten characters. */
  lemma ValidIdExamples()
    ensures IsValidStationId("")
    ensures IsValidStationId("1000-Ab")
    ensures IsValidStationId("0123456789")
  {
    var s := "0123456789";
    assert forall i | 0 <= i < |s| :: '0' <= s[i] <= '9';
    var t := "1000-Ab";
    assert forall i | 0 <= i < |t| :: IsIdChar(t[i]) by {
      assert t == ['1', '0', '0', '0', '-', 'A', 'b'];
    }
  }

  /** Ids the validator rejects: eleven characters, a space, an underscore. */
  lemma InvalidIdExamples()
    ensures !IsValidStationId("01234567890")
    ensures !IsValidStationId("10 00")
    ensures !IsValidStationId("1000_2")
  {
    assert |"01234567890"| == 11;
    assert !IsIdChar("10 00"[2]);
    assert !IsIdChar("1000_2"[4]);
  }
}
