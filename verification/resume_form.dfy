/** The list-editing handlers of the résumé form. Entries are added, patched, removed and
    moved by id, skills are added to and removed from a category, and custom sections are
    kept in step with the section order. Each handler passes a partial record to the hook's
    shallow merge, so each is modelled as a function (or, where the source swaps cells of a
    copied array, a method) from the record to the merged record. Fresh ids come from a random
    generator and are parameters here. */
module ResumeForm {
  import opened Wrappers
  import opened Seqs
  import opened Text
  import opened Schema

  // ---------------------------------------------------------------------------
  // Keys

  function WorkId(w: WorkExperience): string { w.id }
  function EducationId(e: Education): string { e.id }
  function CategoryId(c: SkillCategory): string { c.id }
  function CustomSectionId(s: CustomSection): string { s.id }
  /** An entry of `sectionOrder` is its own key. */
  function SectionKey(s: string): string { s }

  // ---------------------------------------------------------------------------
  // Operations on any list of entries with ids

  /** `xs.findIndex(x => key(x) === id)`: the first position holding that id, or -1. */
  function FindIndex<T>(xs: seq<T>, key: T -> string, id: string): (r: int)
    ensures -1 <= r < |xs|
    ensures r >= 0 ==> key(xs[r]) == id
    ensures forall j :: 0 <= j < |xs| && (r == -1 || j < r) ==> key(xs[j]) != id
  {
    if xs == [] then -1
    else if key(xs[0]) == id then 0
    else
      var k := FindIndex(xs[1..], key, id);
      assert forall j :: 1 <= j < |xs| ==> xs[j] == xs[1..][j - 1];
      if k == -1 then -1 else k + 1
  }

  /** The first position holding `id` is determined by the keys before it. */
  lemma FindIndexIs<T>(xs: seq<T>, key: T -> string, id: string, k: nat)
    requires k < |xs| && key(xs[k]) == id
    requires forall j :: 0 <= j < k ==> key(xs[j]) != id
    ensures FindIndex(xs, key, id) == k
  {
  }

  /** `xs.map(x => key(x) === id ? { ...x, ...patch } : x)` */
  function UpdateById<T, P>(xs: seq<T>, key: T -> string, id: string, apply: (T, P) -> T, patch: P): (r: seq<T>)
    ensures |r| == |xs|
    ensures forall i :: 0 <= i < |xs| && key(xs[i]) != id ==> r[i] == xs[i]
    ensures forall i :: 0 <= i < |xs| && key(xs[i]) == id ==> r[i] == apply(xs[i], patch)
  {
    if xs == [] then []
    else
      var rest := UpdateById(xs[1..], key, id, apply, patch);
      assert forall i :: 1 <= i < |xs| ==> xs[i] == xs[1..][i - 1];
      [if key(xs[0]) == id then apply(xs[0], patch) else xs[0]] + rest
  }

  /** `xs.filter(x => key(x) !== id)` */
  function RemoveById<T(==,!new)>(xs: seq<T>, key: T -> string, id: string): (r: seq<T>)
    ensures forall x :: x in r <==> x in xs && key(x) != id
    ensures IsSubsequence(r, xs)
  {
    if xs == [] then []
    else if key(xs[0]) == id then RemoveById(xs[1..], key, id)
    else [xs[0]] + RemoveById(xs[1..], key, id)
  }

  /** Number of entries carrying `id`. */
  function CountId<T>(xs: seq<T>, key: T -> string, id: string): nat
  {
    if xs == [] then 0 else (if key(xs[0]) == id then 1 else 0) + CountId(xs[1..], key, id)
  }

  /** Removing drops exactly the entries that carry the id: every other entry keeps its
      number of occurrences, and the list shrinks by the number of matching entries. */
  lemma {:induction false} RemoveByIdExact<T(!new)>(xs: seq<T>, key: T -> string, id: string)
    ensures |RemoveById(xs, key, id)| == |xs| - CountId(xs, key, id)
    ensures forall x :: key(x) != id ==> Count(RemoveById(xs, key, id), x) == Count(xs, x)
  {
    if xs != [] {
      RemoveByIdExact(xs[1..], key, id);
      var rest := RemoveById(xs[1..], key, id);
      if key(xs[0]) != id {
        assert RemoveById(xs, key, id) == [xs[0]] + rest;
        assert ([xs[0]] + rest)[1..] == rest;
      }
    }
  }

  /** Removing an id that no entry carries changes nothing. */
  lemma {:induction false} RemoveAbsent<T(!new)>(xs: seq<T>, key: T -> string, id: string)
    requires forall i :: 0 <= i < |xs| ==> key(xs[i]) != id
    ensures RemoveById(xs, key, id) == xs
  {
    if xs != [] {
      assert forall i :: 0 <= i < |xs| - 1 ==> xs[1..][i] == xs[i + 1];
      RemoveAbsent(xs[1..], key, id);
      assert xs == [xs[0]] + xs[1..];
    }
  }

  /** Removing the id of an entry just appended, when no earlier entry carries it, gives
      back the list before the append. */
  lemma RemoveAdded<T(!new)>(xs: seq<T>, x: T, key: T -> string, id: string)
    requires key(x) == id
    requires forall i :: 0 <= i < |xs| ==> key(xs[i]) != id
    ensures RemoveById(xs + [x], key, id) == xs
  {
    RemoveAppend(xs, [x], key, id);
    RemoveAbsent(xs, key, id);
    assert RemoveById([x], key, id) == [];
  }

  /** Removing distributes over concatenation. */
  lemma {:induction false} RemoveAppend<T(!new)>(xs: seq<T>, ys: seq<T>, key: T -> string, id: string)
    ensures RemoveById(xs + ys, key, id) == RemoveById(xs, key, id) + RemoveById(ys, key, id)
  {
    if xs == [] {
      assert xs + ys == ys;
    } else {
      assert (xs + ys)[0] == xs[0] && (xs + ys)[1..] == xs[1..] + ys;
      RemoveAppend(xs[1..], ys, key, id);
    }
  }

  /** Patching entries without touching their ids, then removing an id, is the same as
      removing it straight away. */
  lemma {:induction false} RemoveAfterUpdate<T(!new), P>(xs: seq<T>, key: T -> string, id: string, apply: (T, P) -> T, patch: P)
    requires forall x :: key(apply(x, patch)) == key(x)
    ensures RemoveById(UpdateById(xs, key, id, apply, patch), key, id) == RemoveById(xs, key, id)
  {
    if xs != [] {
      var u := UpdateById(xs, key, id, apply, patch);
      assert u[1..] == UpdateById(xs[1..], key, id, apply, patch);
      RemoveAfterUpdate(xs[1..], key, id, apply, patch);
    }
  }

  /** Exchanges positions `i` and `j`. */
  function Swap<T>(xs: seq<T>, i: nat, j: nat): (r: seq<T>)
    requires i < |xs| && j < |xs|
    ensures |r| == |xs| && r[i] == xs[j] && r[j] == xs[i]
    ensures forall k :: 0 <= k < |xs| && k != i && k != j ==> r[k] == xs[k]
  {
    xs[i := xs[j]][j := xs[i]]
  }

  /** The position a move aims at. */
  function Neighbour(index: int, up: bool): int
  {
    if up then index - 1 else index + 1
  }

  /** What a move handler passes on: nothing when the id is unknown or the neighbour is
      outside the list (the handler returns early), else the list with the entry and its
      neighbour exchanged. */
  function MoveResult<T>(xs: seq<T>, key: T -> string, id: string, up: bool): Option<seq<T>>
  {
    var index := FindIndex(xs, key, id);
    var target := Neighbour(index, up);
    if index == -1 || target < 0 || target >= |xs| then None
    else Some(Swap(xs, index, target))
  }

  /** The list after a move. */
  function Moved<T>(xs: seq<T>, key: T -> string, id: string, up: bool): (r: seq<T>)
    ensures |r| == |xs|
  {
    MoveResult(xs, key, id, up).GetOr(xs)
  }

  /** The move handlers' shared body: copy the list into a fresh array and exchange the two
      cells in place. */
  method MoveById<T>(xs: seq<T>, key: T -> string, id: string, up: bool) returns (r: Option<seq<T>>)
    ensures r == MoveResult(xs, key, id, up)
  {
    var index := FindIndex(xs, key, id);
    if index == -1 {
      return None;
    }
    var target := Neighbour(index, up);
    if target < 0 || target >= |xs| {
      return None;
    }
    var updated := new T[|xs|](i requires 0 <= i < |xs| => xs[i]);
    assert updated[..] == xs;
    updated[index], updated[target] := updated[target], updated[index];
    assert updated[..] == Swap(xs, index, target);
    return Some(updated[..]);
  }

  /** A move exchanges the first entry with the id and its neighbour and leaves every other
      position alone; an unknown id or a neighbour outside the list leaves the list as it is. */
  lemma MovedSwapsNeighbour<T>(xs: seq<T>, key: T -> string, id: string, up: bool)
    ensures var r := Moved(xs, key, id, up);
            var index := FindIndex(xs, key, id);
            var target := Neighbour(index, up);
            if index >= 0 && 0 <= target < |xs| then
              && key(r[target]) == id && r[target] == xs[index] && r[index] == xs[target]
              && forall k :: 0 <= k < |xs| && k != index && k != target ==> r[k] == xs[k]
            else r == xs
  {
  }

  /** A move only reorders: the entries and their multiplicities are unchanged. */
  lemma MovedPermutes<T>(xs: seq<T>, key: T -> string, id: string, up: bool)
    ensures multiset(Moved(xs, key, id, up)) == multiset(xs)
  {
    var index := FindIndex(xs, key, id);
    var target := Neighbour(index, up);
    if index >= 0 && 0 <= target < |xs| {
      var t := xs[index := xs[target]];
      assert multiset(t) == multiset(xs) - multiset{xs[index]} + multiset{xs[target]};
      assert multiset(t[target := xs[index]]) == multiset(t) - multiset{t[target]} + multiset{xs[index]};
    }
  }

  /** Moving an entry up and then down again restores the list. */
  lemma MoveUpThenDown<T>(xs: seq<T>, key: T -> string, id: string)
    requires FindIndex(xs, key, id) >= 1
    ensures Moved(Moved(xs, key, id, true), key, id, false) == xs
  {
    var i := FindIndex(xs, key, id);
    var r := Swap(xs, i, i - 1);
    assert Moved(xs, key, id, true) == r;
    FindIndexIs(r, key, id, i - 1);
    assert Moved(r, key, id, false) == Swap(r, i - 1, i);
    assert Swap(r, i - 1, i) == xs;
  }

  /** Moving an entry down and then up again restores the list when the entry below it
      carries another id (as it always does when ids are unique). */
  lemma MoveDownThenUp<T>(xs: seq<T>, key: T -> string, id: string)
    requires 0 <= FindIndex(xs, key, id) < |xs| - 1
    requires key(xs[FindIndex(xs, key, id) + 1]) != id
    ensures Moved(Moved(xs, key, id, false), key, id, true) == xs
  {
    var i := FindIndex(xs, key, id);
    var r := Swap(xs, i, i + 1);
    assert Moved(xs, key, id, false) == r;
    FindIndexIs(r, key, id, i + 1);
    assert Moved(r, key, id, true) == Swap(r, i + 1, i);
    assert Swap(r, i + 1, i) == xs;
  }

  // ---------------------------------------------------------------------------
  // Partial records: a key that is present replaces the field, even with `undefined`.

  datatype WorkPatch = WorkPatch(
    id: Option<string>, title: Option<string>, company: Option<string>,
    location: Option<Option<string>>, startDate: Option<string>, endDate: Option<Option<string>>,
    current: Option<bool>, description: Option<Option<string>>)

  /** `{ ...w, ...p }` */
  function ApplyWorkPatch(w: WorkExperience, p: WorkPatch): WorkExperience
  {
    WorkExperience(p.id.GetOr(w.id), p.title.GetOr(w.title), p.company.GetOr(w.company),
                   p.location.GetOr(w.location), p.startDate.GetOr(w.startDate),
                   p.endDate.GetOr(w.endDate), p.current.GetOr(w.current),
                   p.description.GetOr(w.description))
  }

  datatype EducationPatch = EducationPatch(
    id: Option<string>, degree: Option<string>, field: Option<string>, institution: Option<string>,
    location: Option<Option<string>>, startYear: Option<Option<int>>, endYear: Option<Option<int>>,
    gpa: Option<Option<real>>)

  /** `{ ...e, ...p }` */
  function ApplyEducationPatch(e: Education, p: EducationPatch): Education
  {
    Education(p.id.GetOr(e.id), p.degree.GetOr(e.degree), p.field.GetOr(e.field),
              p.institution.GetOr(e.institution), p.location.GetOr(e.location),
              p.startYear.GetOr(e.startYear), p.endYear.GetOr(e.endYear), p.gpa.GetOr(e.gpa))
  }

  datatype CategoryPatch = CategoryPatch(id: Option<string>, name: Option<string>, skills: Option<seq<string>>)

  /** `{ ...c, ...p }` */
  function ApplyCategoryPatch(c: SkillCategory, p: CategoryPatch): SkillCategory
  {
    SkillCategory(p.id.GetOr(c.id), p.name.GetOr(c.name), p.skills.GetOr(c.skills))
  }

  datatype CustomSectionPatch = CustomSectionPatch(id: Option<string>, title: Option<string>, content: Option<Option<string>>)

  /** `{ ...s, ...p }` */
  function ApplyCustomSectionPatch(s: CustomSection, p: CustomSectionPatch): CustomSection
  {
    CustomSection(p.id.GetOr(s.id), p.title.GetOr(s.title), p.content.GetOr(s.content))
  }

  // ---------------------------------------------------------------------------
  // Work experience

  /** The entry `addWorkExperience` appends. */
  function NewWorkExperience(id: string): WorkExperience
  {
    WorkExperience(id, "", "", Some(""), "", Some(""), false, Some(""))
  }

  /** `addWorkExperience`: one blank, not-current entry with the fresh id at the end. */
  function AddWorkExperience(d: ResumeData, newId: string): (r: ResumeData)
    ensures |r.workExperience| == |d.workExperience| + 1
    ensures r.workExperience[..|d.workExperience|] == d.workExperience
    ensures var w := r.workExperience[|d.workExperience|];
            w.id == newId && !w.current && !ValidWorkExperience(w)
    ensures r.(workExperience := d.workExperience) == d
  {
    d.(workExperience := d.workExperience + [NewWorkExperience(newId)])
  }

  /** `updateWorkExperience`: same length; entries with the id are patched, the others kept. */
  function UpdateWorkExperience(d: ResumeData, id: string, patch: WorkPatch): (r: ResumeData)
    ensures |r.workExperience| == |d.workExperience|
    ensures forall i :: 0 <= i < |d.workExperience| ==>
              r.workExperience[i] == if d.workExperience[i].id == id
                                     then ApplyWorkPatch(d.workExperience[i], patch)
                                     else d.workExperience[i]
    ensures r.(workExperience := d.workExperience) == d
  {
    d.(workExperience := UpdateById(d.workExperience, WorkId, id, ApplyWorkPatch, patch))
  }

  /** `removeWorkExperience`: the entries with the id go, the rest keep their order. */
  function RemoveWorkExperience(d: ResumeData, id: string): (r: ResumeData)
    ensures forall w :: w in r.workExperience <==> w in d.workExperience && w.id != id
    ensures IsSubsequence(r.workExperience, d.workExperience)
    ensures r.(workExperience := d.workExperience) == d
  {
    d.(workExperience := RemoveById(d.workExperience, WorkId, id))
  }

  /** Removing the entry just added gives back the record, when the fresh id was unused. */
  lemma RemoveAddedWorkExperience(d: ResumeData, newId: string)
    requires forall i :: 0 <= i < |d.workExperience| ==> d.workExperience[i].id != newId
    ensures RemoveWorkExperience(AddWorkExperience(d, newId), newId) == d
  {
    RemoveAdded(d.workExperience, NewWorkExperience(newId), WorkId, newId);
  }

  /** The record after `moveWorkExperience`. */
  function WorkMoved(d: ResumeData, id: string, up: bool): ResumeData
  {
    d.(workExperience := Moved(d.workExperience, WorkId, id, up))
  }

  /** `moveWorkExperience` */
  method MoveWorkExperience(d: ResumeData, id: string, up: bool) returns (r: ResumeData)
    ensures r == WorkMoved(d, id, up)
    ensures multiset(r.workExperience) == multiset(d.workExperience)
    ensures r.(workExperience := d.workExperience) == d
  {
    var moved := MoveById(d.workExperience, WorkId, id, up);
    MovedPermutes(d.workExperience, WorkId, id, up);
    if moved.None? {
      return d;
    }
    return d.(workExperience := moved.value);
  }

  // ---------------------------------------------------------------------------
  // Education

  /** The entry `addEducation` appends: empty texts, no years and no GPA. */
  function NewEducation(id: string): Education
  {
    Education(id, "", "", "", Some(""), None, None, None)
  }

  /** `addEducation` */
  function AddEducation(d: ResumeData, newId: string): (r: ResumeData)
    ensures |r.education| == |d.education| + 1
    ensures r.education[..|d.education|] == d.education
    ensures var e := r.education[|d.education|];
            e.id == newId && e.gpa.None? && !ValidEducation(e)
    ensures r.(education := d.education) == d
  {
    d.(education := d.education + [NewEducation(newId)])
  }

  /** `updateEducation` */
  function UpdateEducation(d: ResumeData, id: string, patch: EducationPatch): (r: ResumeData)
    ensures |r.education| == |d.education|
    ensures forall i :: 0 <= i < |d.education| ==>
              r.education[i] == if d.education[i].id == id
                                then ApplyEducationPatch(d.education[i], patch)
                                else d.education[i]
    ensures r.(education := d.education) == d
  {
    d.(education := UpdateById(d.education, EducationId, id, ApplyEducationPatch, patch))
  }

  /** `removeEducation` */
  function RemoveEducation(d: ResumeData, id: string): (r: ResumeData)
    ensures forall e :: e in r.education <==> e in d.education && e.id != id
    ensures IsSubsequence(r.education, d.education)
    ensures r.(education := d.education) == d
  {
    d.(education := RemoveById(d.education, EducationId, id))
  }

  // ---------------------------------------------------------------------------
  // Skills

  /** `addSkillCategory`: an unnamed category without skills. */
  function AddSkillCategory(d: ResumeData, newId: string): (r: ResumeData)
    ensures |r.skillCategories| == |d.skillCategories| + 1
    ensures r.skillCategories[..|d.skillCategories|] == d.skillCategories
    ensures var c := r.skillCategories[|d.skillCategories|];
            c.id == newId && c.skills == [] && !ValidSkillCategory(c)
    ensures r.(skillCategories := d.skillCategories) == d
  {
    d.(skillCategories := d.skillCategories + [SkillCategory(newId, "", [])])
  }

  /** `updateSkillCategory` */
  function UpdateSkillCategory(d: ResumeData, id: string, patch: CategoryPatch): (r: ResumeData)
    ensures |r.skillCategories| == |d.skillCategories|
    ensures forall i :: 0 <= i < |d.skillCategories| ==>
              r.skillCategories[i] == if d.skillCategories[i].id == id
                                      then ApplyCategoryPatch(d.skillCategories[i], patch)
                                      else d.skillCategories[i]
    ensures r.(skillCategories := d.skillCategories) == d
  {
    d.(skillCategories := UpdateById(d.skillCategories, CategoryId, id, ApplyCategoryPatch, patch))
  }

  /** `removeSkillCategory` */
  function RemoveSkillCategory(d: ResumeData, id: string): (r: ResumeData)
    ensures forall c :: c in r.skillCategories <==> c in d.skillCategories && c.id != id
    ensures IsSubsequence(r.skillCategories, d.skillCategories)
    ensures r.(skillCategories := d.skillCategories) == d
  {
    d.(skillCategories := RemoveById(d.skillCategories, CategoryId, id))
  }

  /** `{ ...c, skills: [...c.skills, skill] }` */
  function AppendSkill(c: SkillCategory, skill: string): SkillCategory
  {
    c.(skills := c.skills + [skill])
  }

  /** `addSkill`: a blank skill is ignored; otherwise the trimmed skill is appended to every
      category with the id, and no other category changes. */
  function AddSkill(d: ResumeData, categoryId: string, skill: string): (r: ResumeData)
    ensures IsBlank(skill) ==> r == d
    ensures r.(skillCategories := d.skillCategories) == d
    ensures |r.skillCategories| == |d.skillCategories|
    ensures forall i :: 0 <= i < |d.skillCategories| ==>
              var c := d.skillCategories[i];
              r.skillCategories[i] ==
                if c.id == categoryId && !IsBlank(skill) then c.(skills := c.skills + [Trim(skill)]) else c
    ensures !IsBlank(skill) ==> forall i :: 0 <= i < |d.skillCategories| && d.skillCategories[i].id == categoryId ==>
              var s := r.skillCategories[i].skills; s[|s| - 1] != [] && IsTrimmed(s[|s| - 1])
  {
    if IsBlank(skill) then d
    else d.(skillCategories := UpdateById(d.skillCategories, CategoryId, categoryId, AppendSkill, Trim(skill)))
  }

  /** `skills.filter((_, index) => index !== k)` */
  function RemoveAt(s: seq<string>, k: int): (r: seq<string>)
    ensures !(0 <= k < |s|) ==> r == s
    ensures 0 <= k < |s| ==> |r| == |s| - 1 && r[..k] == s[..k] && r[k..] == s[k + 1..]
  {
    if 0 <= k < |s| then s[..k] + s[k + 1..] else s
  }

  /** `{ ...c, skills: c.skills.filter((_, index) => index !== k) }` */
  function DropSkill(c: SkillCategory, k: int): SkillCategory
  {
    c.(skills := RemoveAt(c.skills, k))
  }

  /** `removeSkill`: only position `skillIndex` of the categories with the id goes. */
  function RemoveSkill(d: ResumeData, categoryId: string, skillIndex: int): (r: ResumeData)
    ensures r.(skillCategories := d.skillCategories) == d
    ensures |r.skillCategories| == |d.skillCategories|
    ensures forall i :: 0 <= i < |d.skillCategories| && d.skillCategories[i].id != categoryId ==>
              r.skillCategories[i] == d.skillCategories[i]
    ensures forall i :: 0 <= i < |d.skillCategories| && d.skillCategories[i].id == categoryId ==>
              var c := d.skillCategories[i];
              r.skillCategories[i] == c.(skills := RemoveAt(c.skills, skillIndex))
  {
    d.(skillCategories := UpdateById(d.skillCategories, CategoryId, categoryId, DropSkill, skillIndex))
  }

  /** Adding a skill and removing it again by its position restores the category. */
  lemma RemoveAddedSkill(d: ResumeData, categoryId: string, skill: string, i: nat)
    requires !IsBlank(skill) && i < |d.skillCategories| && d.skillCategories[i].id == categoryId
    ensures var added := AddSkill(d, categoryId, skill);
            RemoveSkill(added, categoryId, |d.skillCategories[i].skills|).skillCategories[i] == d.skillCategories[i]
  {
    var c := d.skillCategories[i];
    var s := c.skills + [Trim(skill)];
    assert RemoveAt(s, |c.skills|) == c.skills;
  }

  // ---------------------------------------------------------------------------
  // Custom sections and the section order

  /** The order used when the record has none. */
  const DefaultSectionOrder: seq<string> := ["personalInfo", "workExperience", "education", "skillCategories"]

  /** `sectionOrder || [...the four sections, ...custom section ids]` */
  function EffectiveSectionOrder(d: ResumeData): (r: seq<string>)
    ensures d.sectionOrder.Some? ==> r == d.sectionOrder.value
    ensures d.sectionOrder.None? ==>
              |r| >= 4 && r[..4] == DefaultSectionOrder &&
              forall s :: s in d.customSections.GetOr([]) ==> s.id in r
  {
    if d.sectionOrder.Some? then d.sectionOrder.value
    else
      var cs := d.customSections.GetOr([]);
      var ids := seq(|cs|, i requires 0 <= i < |cs| => cs[i].id);
      assert forall s :: s in cs ==> s.id in ids by {
        forall s | s in cs ensures s.id in ids {
          var i :| 0 <= i < |cs| && cs[i] == s;
          assert ids[i] == s.id;
        }
      }
      DefaultSectionOrder + ids
  }

  /** Every custom section has a place in the record's own section order. */
  predicate OrderCoversCustom(d: ResumeData)
  {
    forall s :: s in d.customSections.GetOr([]) ==> s.id in d.sectionOrder.GetOr([])
  }

  /** Whether or not the record has an order of its own, the order in use places every
      custom section once the invariant holds. */
  lemma EffectiveOrderCoversCustom(d: ResumeData)
    requires OrderCoversCustom(d)
    ensures forall s :: s in d.customSections.GetOr([]) ==> s.id in EffectiveSectionOrder(d)
  {
  }

  /** `addCustomSection`: a section titled "Custom Section" is appended, and its id is
      appended to the order, or to the four default sections when there is no order. */
  function AddCustomSection(d: ResumeData, newId: string): (r: ResumeData)
    ensures r.customSections.Some? && r.sectionOrder.Some?
    ensures r.customSections.value == d.customSections.GetOr([]) + [CustomSection(newId, "Custom Section", Some(""))]
    ensures r.sectionOrder.value == d.sectionOrder.GetOr(DefaultSectionOrder) + [newId]
    ensures r.(customSections := d.customSections, sectionOrder := d.sectionOrder) == d
  {
    var section := CustomSection(newId, "Custom Section", Some(""));
    d.(customSections := Some(d.customSections.GetOr([]) + [section]),
       sectionOrder := Some(d.sectionOrder.GetOr(DefaultSectionOrder) + [section.id]))
  }

  /** `updateCustomSection` */
  function UpdateCustomSection(d: ResumeData, id: string, patch: CustomSectionPatch): (r: ResumeData)
    ensures r.customSections.Some?
    ensures var cs := d.customSections.GetOr([]);
            |r.customSections.value| == |cs| &&
            forall i :: 0 <= i < |cs| ==>
              r.customSections.value[i] == if cs[i].id == id then ApplyCustomSectionPatch(cs[i], patch) else cs[i]
    ensures r.(customSections := d.customSections) == d
  {
    d.(customSections := Some(UpdateById(d.customSections.GetOr([]), CustomSectionId, id, ApplyCustomSectionPatch, patch)))
  }

  /** `removeCustomSection`: the id leaves both the sections and the order. */
  function RemoveCustomSection(d: ResumeData, id: string): (r: ResumeData)
    ensures r.customSections.Some? && r.sectionOrder.Some?
    ensures forall s :: s in r.customSections.value <==> s in d.customSections.GetOr([]) && s.id != id
    ensures forall k :: k in r.sectionOrder.value <==> k in d.sectionOrder.GetOr([]) && k != id
    ensures IsSubsequence(r.customSections.value, d.customSections.GetOr([]))
    ensures IsSubsequence(r.sectionOrder.value, d.sectionOrder.GetOr([]))
    ensures r.(customSections := d.customSections, sectionOrder := d.sectionOrder) == d
  {
    d.(customSections := Some(RemoveById(d.customSections.GetOr([]), CustomSectionId, id)),
       sectionOrder := Some(RemoveById(d.sectionOrder.GetOr([]), SectionKey, id)))
  }

  /** Adding a custom section keeps every custom section placed in the order. */
  lemma AddCustomSectionCovers(d: ResumeData, newId: string)
    requires OrderCoversCustom(d)
    ensures OrderCoversCustom(AddCustomSection(d, newId))
  {
    var r := AddCustomSection(d, newId);
    forall s | s in r.customSections.value ensures s.id in r.sectionOrder.value {
      if s !in d.customSections.GetOr([]) {
        assert s.id == newId;
      }
    }
  }

  /** Removing a custom section keeps every remaining custom section placed in the order. */
  lemma RemoveCustomSectionCovers(d: ResumeData, id: string)
    requires OrderCoversCustom(d)
    ensures OrderCoversCustom(RemoveCustomSection(d, id))
  {
  }

  /** Removing the section just added gives back the sections and the order, when the
      fresh id was unused. */
  lemma RemoveAddedCustomSection(d: ResumeData, newId: string)
    requires forall i :: 0 <= i < |d.customSections.GetOr([])| ==> d.customSections.GetOr([])[i].id != newId
    requires newId !in d.sectionOrder.GetOr(DefaultSectionOrder)
    ensures var r := RemoveCustomSection(AddCustomSection(d, newId), newId);
            r.customSections == Some(d.customSections.GetOr([])) &&
            r.sectionOrder == Some(d.sectionOrder.GetOr(DefaultSectionOrder))
  {
    var cs := d.customSections.GetOr([]);
    var order := d.sectionOrder.GetOr(DefaultSectionOrder);
    RemoveAdded(cs, CustomSection(newId, "Custom Section", Some("")), CustomSectionId, newId);
    assert forall i :: 0 <= i < |order| ==> SectionKey(order[i]) != newId by {
      forall i | 0 <= i < |order| ensures SectionKey(order[i]) != newId {
        assert order[i] in order;
      }
    }
    RemoveAdded(order, newId, SectionKey, newId);
  }

  /** The record after `moveSection`: a record without an order is left alone. */
  function SectionMoved(d: ResumeData, sectionId: string, up: bool): ResumeData
  {
    if d.sectionOrder.None? then d
    else d.(sectionOrder := Some(Moved(d.sectionOrder.value, SectionKey, sectionId, up)))
  }

  /** `moveSection` */
  method MoveSection(d: ResumeData, sectionId: string, up: bool) returns (r: ResumeData)
    ensures r == SectionMoved(d, sectionId, up)
    ensures r.(sectionOrder := d.sectionOrder) == d
    ensures OrderCoversCustom(d) ==> OrderCoversCustom(r)
  {
    var moved := MoveById(d.sectionOrder.GetOr([]), SectionKey, sectionId, up);
    if d.sectionOrder.Some? {
      MovedPermutes(d.sectionOrder.value, SectionKey, sectionId, up);
      assert forall k :: k in d.sectionOrder.value <==> k in multiset(d.sectionOrder.value);
    }
    if moved.None? {
      return d;
    }
    return d.(sectionOrder := Some(moved.value));
  }

  // ---------------------------------------------------------------------------
  // Moving education entries

  /** The education list's move buttons are wired to `moveSection`, which looks the entry's
      id up in the section order. The record after such a click, as wired. */
  method MoveEducationAsWired(d: ResumeData, educationId: string, up: bool) returns (r: ResumeData)
    ensures r == SectionMoved(d, educationId, up)
  {
    r := MoveSection(d, educationId, up);
  }

  /** As wired, a click never reorders the education list, and it changes nothing at all
      when the entry's id is not in the section order (generated ids never are). */
  lemma EducationMoveIgnored(d: ResumeData, educationId: string, up: bool)
    ensures SectionMoved(d, educationId, up).education == d.education
    ensures educationId !in d.sectionOrder.GetOr([]) ==> SectionMoved(d, educationId, up) == d
  {
    if d.sectionOrder.Some? && educationId !in d.sectionOrder.value {
      var o := d.sectionOrder.value;
      assert forall j :: 0 <= j < |o| ==> SectionKey(o[j]) != educationId by {
        forall j | 0 <= j < |o| ensures SectionKey(o[j]) != educationId {
          assert o[j] in o;
        }
      }
    }
  }

  /** The record after moving an education entry as evidently intended. */
  function EducationMoved(d: ResumeData, id: string, up: bool): ResumeData
  {
    d.(education := Moved(d.education, EducationId, id, up))
  }

  /** Moving an education entry as intended: the same exchange as `moveWorkExperience`,
      applied to the education list. */
  method MoveEducation(d: ResumeData, id: string, up: bool) returns (r: ResumeData)
    ensures r == EducationMoved(d, id, up)
    ensures multiset(r.education) == multiset(d.education)
    ensures r.(education := d.education) == d
  {
    var moved := MoveById(d.education, EducationId, id, up);
    MovedPermutes(d.education, EducationId, id, up);
    if moved.None? {
      return d;
    }
    return d.(education := moved.value);
  }

  /** Two entries without a section order: clicking "up" on the second changes nothing as
      wired, while the intended move puts it first. */
  lemma EducationMoveExample(d: ResumeData, a: Education, b: Education)
    requires d.education == [a, b] && a.id != b.id && d.sectionOrder.None?
    ensures SectionMoved(d, b.id, true) == d
    ensures EducationMoved(d, b.id, true).education == [b, a]
  {
    FindIndexIs(d.education, EducationId, b.id, 1);
    assert Swap(d.education, 1, 0) == [b, a];
  }
}
