/** `ResumeStorage`: the résumé, its template and a list of saved versions kept in the
    browser's local storage, a map from keys to stored strings. A stored string is modelled
    by what it encodes: text written as is, or the JSON of a résumé or of the version list,
    which `JSON.parse` turns back into the same value. */
module ResumeStorage {
  import opened Wrappers
  import opened Schema

  const StorageKey := "resume_builder_data"
  const TemplateKey := "resume_builder_template"
  const VersionsKey := "resume_builder_versions"
  const DefaultTemplate := "modern"

  datatype Version = Version(data: ResumeData, template: string, timestamp: string)

  datatype Stored = Text(text: string) | DataJson(data: ResumeData) | VersionsJson(versions: seq<Version>)

  datatype Loaded = Loaded(data: Option<ResumeData>, template: string)

  // ------------------------------------------------- the store as a value

  function Saved(m: map<string, Stored>, data: ResumeData, template: string): map<string, Stored>
  {
    m[StorageKey := DataJson(data)][TemplateKey := Text(template)]
  }

  /** `loadFromLocal`: the saved résumé, if any, and the saved template, where an absent or
      empty template reads "modern". A value under these keys that this class did not write
      is read as no résumé and as no template. */
  function Load(m: map<string, Stored>): Loaded
  {
    Loaded(
      if StorageKey in m && m[StorageKey].DataJson? then Some(m[StorageKey].data) else None,
      if TemplateKey in m && m[TemplateKey].Text? && m[TemplateKey].text != "" then m[TemplateKey].text
      else DefaultTemplate)
  }

  function Cleared(m: map<string, Stored>): map<string, Stored>
  {
    m - {StorageKey, TemplateKey}
  }

  /** `hasLocalData` */
  predicate HasData(m: map<string, Stored>)
  {
    StorageKey in m
  }

  /** `getVersions`: the stored list, or [] when there is none. */
  function Versions(m: map<string, Stored>): seq<Version>
  {
    if VersionsKey in m && m[VersionsKey].VersionsJson? then m[VersionsKey].versions else []
  }

  function VersionPushed(m: map<string, Stored>, v: Version): map<string, Stored>
  {
    m[VersionsKey := VersionsJson(Versions(m) + [v])]
  }

  /** `restoreVersion(index)`: `versions[index] || null`. A stored version is an object and
      so never falsy; an index outside the list reads `undefined`, hence null. */
  function Restore(m: map<string, Stored>, index: int): Option<Version>
  {
    if VersionsKey !in m then None
    else if 0 <= index < |Versions(m)| then Some(Versions(m)[index])
    else None
  }

  function VersionsCleared(m: map<string, Stored>): map<string, Stored>
  {
    m - {VersionsKey}
  }

  // ----------------------------------------------------------- properties

  /** Saving and then loading gives back the résumé and the template, except that an empty
      template comes back as "modern". Saving touches neither the versions nor other keys. */
  lemma SaveThenLoad(m: map<string, Stored>, data: ResumeData, template: string)
    ensures Load(Saved(m, data, template)) == Loaded(Some(data), if template == "" then DefaultTemplate else template)
    ensures HasData(Saved(m, data, template))
    ensures Versions(Saved(m, data, template)) == Versions(m)
    ensures forall k :: k != StorageKey && k != TemplateKey ==>
              (k in Saved(m, data, template) <==> k in m) &&
              (k in m ==> Saved(m, data, template)[k] == m[k])
  {
  }

  /** Nothing stored: no résumé and the "modern" template. */
  lemma LoadEmpty()
    ensures Load(map[]) == Loaded(None, DefaultTemplate)
    ensures !HasData(map[]) && Versions(map[]) == [] && Restore(map[], 0) == None
  {
  }

  /** After clearing there is nothing to load and no local data; versions are kept. */
  lemma ClearThenLoad(m: map<string, Stored>)
    ensures !HasData(Cleared(m))
    ensures Load(Cleared(m)) == Loaded(None, DefaultTemplate)
    ensures Versions(Cleared(m)) == Versions(m)
  {
    assert VersionsKey in Cleared(m) <==> VersionsKey in m;
  }

  /** Saving a version appends exactly that version and keeps the earlier ones, and leaves
      the saved résumé alone. */
  lemma PushThenVersions(m: map<string, Stored>, v: Version)
    ensures Versions(VersionPushed(m, v)) == Versions(m) + [v]
    ensures |Versions(VersionPushed(m, v))| == |Versions(m)| + 1
    ensures forall i :: 0 <= i < |Versions(m)| ==> Restore(VersionPushed(m, v), i) == Some(Versions(m)[i])
    ensures Restore(VersionPushed(m, v), |Versions(m)|) == Some(v)
    ensures Load(VersionPushed(m, v)) == Load(m) && (HasData(VersionPushed(m, v)) <==> HasData(m))
  {
  }

  /** Restoring gives the version at an index inside the list and null for any other index,
      negative ones included, or when nothing is stored. */
  lemma RestoreRange(m: map<string, Stored>, index: int)
    ensures Restore(m, index).Some? <==> 0 <= index < |Versions(m)|
    ensures Restore(m, index).Some? ==> Restore(m, index).value == Versions(m)[index]
  {
  }

  /** After clearing the versions the list is empty and nothing can be restored; the résumé
      is kept. */
  lemma ClearVersionsThenVersions(m: map<string, Stored>, index: int)
    ensures Versions(VersionsCleared(m)) == []
    ensures Restore(VersionsCleared(m), index) == None
    ensures Load(VersionsCleared(m)) == Load(m)
  {
    assert StorageKey in VersionsCleared(m) <==> StorageKey in m;
    assert TemplateKey in VersionsCleared(m) <==> TemplateKey in m;
  }

  // ------------------------------------------------------------ the class

  /** The static methods of `ResumeStorage` over the local storage they write. Every body is
      wrapped in try/catch in the source, so none of them fails. */
  class LocalStore {
    var items: map<string, Stored>

    constructor(initial: map<string, Stored>)
      ensures items == initial
    {
      items := initial;
    }

    /** `saveToLocal(data, template)` */
    method SaveToLocal(data: ResumeData, template: string)
      modifies this
      ensures items == Saved(old(items), data, template)
      ensures LoadFromLocal() == Loaded(Some(data), if template == "" then DefaultTemplate else template)
    {
      items := items[StorageKey := DataJson(data)];
      items := items[TemplateKey := Text(template)];
      SaveThenLoad(old(items), data, template);
    }

    /** `loadFromLocal()` */
    function LoadFromLocal(): (r: Loaded)
      reads this
      ensures r.data.Some? ==> HasLocalData()
      ensures r.template != ""
    {
      Load(items)
    }

    /** `clearLocal()` */
    method ClearLocal()
      modifies this
      ensures items == Cleared(old(items))
      ensures !HasLocalData() && GetVersions() == old(GetVersions())
    {
      items := items - {StorageKey};
      items := items - {TemplateKey};
      assert items == Cleared(old(items));
      ClearThenLoad(old(items));
    }

    /** `hasLocalData()` */
    predicate HasLocalData()
      reads this
    {
      HasData(items)
    }

    /** `saveVersion(data, template)`; the clock reading is the `timestamp` parameter. */
    method SaveVersion(data: ResumeData, template: string, timestamp: string)
      modifies this
      ensures items == VersionPushed(old(items), Version(data, template, timestamp))
      ensures GetVersions() == old(GetVersions()) + [Version(data, template, timestamp)]
    {
      var versions: seq<Version> := [];
      if VersionsKey in items && items[VersionsKey].VersionsJson? {
        versions := items[VersionsKey].versions;
      }
      versions := versions + [Version(data, template, timestamp)];
      items := items[VersionsKey := VersionsJson(versions)];
    }

    /** `getVersions()` */
    function GetVersions(): (r: seq<Version>)
      reads this
      ensures VersionsKey !in items ==> r == []
    {
      Versions(items)
    }

    /** `restoreVersion(index)` */
    function RestoreVersion(index: int): (r: Option<Version>)
      reads this
      ensures r.Some? <==> 0 <= index < |GetVersions()|
      ensures r.Some? ==> r.value == GetVersions()[index]
    {
      RestoreRange(items, index);
      Restore(items, index)
    }

    /** `clearVersions()` */
    method ClearVersions()
      modifies this
      ensures items == VersionsCleared(old(items))
      ensures GetVersions() == [] && LoadFromLocal() == old(LoadFromLocal())
    {
      items := items - {VersionsKey};
      ClearVersionsThenVersions(old(items), 0);
    }
  }
}
