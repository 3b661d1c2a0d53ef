/**
 * The administrator's dialog for editing a user: the user type, the
 * departments the user may work in (the primary department cannot be
 * unticked), and the signature permissions, whose roles are typed as a
 * comma-separated list.
 */
module EditUserModal {
  import opened Common
  import opened Types
  import Text

  /**
   * `handleDeptCheckboxChange`: an absent department is added at the end; a
   * present one is removed unless it is the user's primary department.
   */
  function ToggleDepartment(allowed: seq<int>, primary: int, deptId: int): (r: seq<int>)
    ensures deptId !in allowed ==> deptId in r
    ensures deptId in allowed && deptId != primary ==> deptId !in r
    ensures deptId == primary ==> deptId in r
    ensures forall x :: x != deptId ==> (x in r <==> x in allowed)
    ensures Distinct(allowed) ==> Distinct(r)
  {
    if deptId in allowed then
      if primary != deptId then Toggle(allowed, deptId) else allowed
    else allowed + [deptId]
  }

  /** The primary department, once allowed, stays allowed whatever is ticked. */
  lemma {:induction false} PrimaryNeverRemoved(allowed: seq<int>, primary: int, clicks: seq<int>)
    requires primary in allowed
    ensures primary in ToggleAll(allowed, primary, clicks)
    decreases |clicks|
  {
    if clicks != [] {
      PrimaryNeverRemoved(ToggleDepartment(allowed, primary, clicks[0]), primary, clicks[1..]);
    }
  }

  /** The allowed list after a series of clicks. */
  function ToggleAll(allowed: seq<int>, primary: int, clicks: seq<int>): seq<int>
    decreases |clicks|
  {
    if clicks == [] then allowed else ToggleAll(ToggleDepartment(allowed, primary, clicks[0]), primary, clicks[1..])
  }

  /**
   * Ticking a non-primary department twice restores which departments are
   * allowed; starting from an unticked one it restores the list exactly.
   */
  lemma ToggleDepartmentTwice(allowed: seq<int>, primary: int, deptId: int)
    requires deptId != primary
    ensures forall x :: x in ToggleDepartment(ToggleDepartment(allowed, primary, deptId), primary, deptId) <==> x in allowed
    ensures deptId !in allowed ==> ToggleDepartment(ToggleDepartment(allowed, primary, deptId), primary, deptId) == allowed
  {
    if deptId !in allowed {
      ToggleAbsentTwice(allowed, deptId);
    }
  }

  /** `value.split(',').map(s => s.trim())`: one trimmed role per comma-separated part. */
  function ParseRoles(input: string): (r: seq<string>)
    ensures |r| == |Text.Split(input, ',')| >= 1
    ensures forall i :: 0 <= i < |r| ==> r[i] == Text.Trim(Text.Split(input, ',')[i])
    ensures forall role :: role in r ==> ',' !in role && IsTrimmed(role)
  {
    var parts := Text.Split(input, ',');
    var r := Map(parts, Text.Trim);
    assert forall role :: role in r ==> ',' !in role && IsTrimmed(role) by {
      forall role | role in r ensures ',' !in role && IsTrimmed(role) {
        var k :| 0 <= k < |r| && r[k] == role;
        assert parts[k] in parts;
        TrimKeepsOut(parts[k], ',');
      }
    }
    r
  }

  /** The text of the roles field: `signatureRoles.join(', ')`. */
  function DisplayRoles(roles: seq<string>): string {
    Text.Join(roles, ", ")
  }

  /** Neither end of the text is whitespace. */
  predicate IsTrimmed(s: string) {
    s == [] || (!Text.IsWhitespace(s[0]) && !Text.IsWhitespace(s[|s| - 1]))
  }

  lemma TrimKeepsOut(s: string, c: char)
    requires c !in s
    ensures c !in Text.Trim(s)
  {
    var t := Text.TrimStart(s);
    assert forall x :: x in t ==> x in s;
    var r := Text.TrimEnd(t);
    assert forall x :: x in r ==> x in t;
  }

  lemma TrimOfTrimmed(s: string)
    requires IsTrimmed(s)
    ensures Text.Trim(s) == s && Text.Trim(" " + s) == s
  {
    assert Text.TrimStart(s) == s && Text.TrimEnd(s) == s;
    var spaced := " " + s;
    assert spaced[1..] == s;
    assert Text.TrimStart(spaced) == Text.TrimStart(s);
  }

  /** The roles each shown with a leading space after the first, as `join(', ')` lays them out between commas. */
  function Spaced(roles: seq<string>): (r: seq<string>)
    ensures |r| == |roles|
    ensures roles != [] ==> r[0] == roles[0]
    ensures forall i :: 0 < i < |roles| ==> r[i] == " " + roles[i]
  {
    if roles == [] then [] else [roles[0]] + Map(roles[1..], (role: string) => " " + role)
  }

  lemma {:induction false} JoinSpaced(roles: seq<string>)
    ensures Text.Join(roles, ", ") == Text.Join(Spaced(roles), ",")
    decreases |roles|
  {
    if |roles| > 1 {
      var tail := Spaced(roles[1..]);
      var sp := Spaced(roles);
      var rest := Text.Join(tail, ",");
      SpacedTail(roles);
      calc {
        Text.Join(sp, ",");
        sp[0] + "," + Text.Join(sp[1..], ",");
        { JoinLeadingSpace(tail); }
        roles[0] + "," + (" " + rest);
        { CommaSpace(roles[0], rest); }
        roles[0] + ", " + rest;
        { JoinSpaced(roles[1..]); }
        roles[0] + ", " + Text.Join(roles[1..], ", ");
        Text.Join(roles, ", ");
      }
    }
  }

  /** Past the first role, the shown roles are the tail's shown roles with a space put before the tail's first. */
  lemma SpacedTail(roles: seq<string>)
    requires |roles| > 1
    ensures Spaced(roles)[1..] == [" " + Spaced(roles[1..])[0]] + Spaced(roles[1..])[1..]
  {
    var sp := Spaced(roles);
    var tail := Spaced(roles[1..]);
    forall k | 0 <= k < |sp| - 1 ensures sp[1..][k] == ([" " + tail[0]] + tail[1..])[k] {
      assert sp[k + 1] == " " + roles[k + 1];
      if k > 0 {
        assert tail[k] == " " + roles[1..][k];
      }
    }
  }

  lemma CommaSpace(a: string, rest: string)
    ensures a + "," + (" " + rest) == a + ", " + rest
  {
    ConcatAssoc(a + ",", " ", rest);
    ConcatAssoc(a, ",", " ");
    assert "," + " " == ", ";
  }

  lemma JoinLeadingSpace(parts: seq<string>)
    requires parts != []
    ensures Text.Join([" " + parts[0]] + parts[1..], ",") == " " + Text.Join(parts, ",")
  {
    var q := [" " + parts[0]] + parts[1..];
    assert q[1..] == parts[1..];
  }

  /**
   * Editing nothing round-trips: a non-empty list of trimmed, comma-free roles
   * is shown as text that parses back to the same roles. (An empty list is
   * shown as the empty text, which parses to one empty role.)
   */
  lemma RolesRoundTrip(roles: seq<string>)
    requires |roles| >= 1
    requires forall role :: role in roles ==> ',' !in role && IsTrimmed(role)
    ensures ParseRoles(DisplayRoles(roles)) == roles
  {
    var sp := Spaced(roles);
    SplitDisplayed(roles);
    var r := ParseRoles(DisplayRoles(roles));
    forall i | 0 <= i < |roles| ensures r[i] == roles[i] {
      TrimSpaced(roles, i);
    }
  }

  lemma TrimSpaced(roles: seq<string>, i: nat)
    requires i < |roles| && IsTrimmed(roles[i])
    ensures Text.Trim(Spaced(roles)[i]) == roles[i]
  {
    TrimShown(roles[i], Spaced(roles)[i]);
  }

  lemma TrimShown(role: string, shown: string)
    requires IsTrimmed(role) && (shown == role || shown == " " + role)
    ensures Text.Trim(shown) == role
  {
    TrimOfTrimmed(role);
    if shown != role {
      assert shown == " " + role;
    }
  }

  /** The shown text splits at its commas into the roles, each after the first with its leading space. */
  lemma SplitDisplayed(roles: seq<string>)
    requires |roles| >= 1
    requires forall role :: role in roles ==> ',' !in role
    ensures Text.Split(DisplayRoles(roles), ',') == Spaced(roles)
  {
    SpacedCommaFree(roles);
    JoinSpaced(roles);
    Text.SplitJoin(Spaced(roles), ',');
  }

  lemma SpacedCommaFree(roles: seq<string>)
    requires forall role :: role in roles ==> ',' !in role
    ensures forall p :: p in Spaced(roles) ==> ',' !in p
  {
    var sp := Spaced(roles);
    forall p | p in sp ensures ',' !in p {
      var k :| 0 <= k < |sp| && sp[k] == p;
      assert roles[k] in roles;
    }
  }

  /** The empty role list does not round-trip. */
  lemma EmptyRolesReparse()
    ensures ParseRoles(DisplayRoles([])) == [""]
  {
    assert Text.Split("", ',') == [""];
    assert Text.AllWhitespace("");
  }

  class EditUserModal {
    /** The user being edited, as it was when the dialog opened. */
    const user: User
    var userType: UserType
    var allowedDepartmentIds: seq<int>
    var permissions: UserPermissions

    /** The ticked departments form a set, and the primary department stays ticked once it is. */
    ghost predicate Valid()
      reads this
    {
      && Distinct(allowedDepartmentIds)
      && (user.departmentId in user.allowedDepartmentIds ==> user.departmentId in allowedDepartmentIds)
    }

    /** The dialog opens on the user's own values; the departments become a set. */
    constructor(u: User)
      ensures Valid()
      ensures user == u && userType == u.userType && permissions == u.permissions
      ensures allowedDepartmentIds == Dedup(u.allowedDepartmentIds)
    {
      user := u;
      userType := u.userType;
      allowedDepartmentIds := Dedup(u.allowedDepartmentIds);
      permissions := u.permissions;
    }

    method SetUserType(t: UserType)
      requires Valid()
      modifies this
      ensures Valid()
      ensures userType == t && allowedDepartmentIds == old(allowedDepartmentIds) && permissions == old(permissions)
    {
      userType := t;
    }

    /** `handleDeptCheckboxChange`. */
    method HandleDeptCheckboxChange(deptId: int)
      requires Valid()
      modifies this
      ensures Valid()
      ensures allowedDepartmentIds == ToggleDepartment(old(allowedDepartmentIds), user.departmentId, deptId)
      ensures userType == old(userType) && permissions == old(permissions)
    {
      allowedDepartmentIds := ToggleDepartment(allowedDepartmentIds, user.departmentId, deptId);
    }

    method SetCanAccessSignatureModule(checked: bool)
      requires Valid()
      modifies this
      ensures Valid()
      ensures permissions == old(permissions).(canAccessSignatureModule := checked)
      ensures userType == old(userType) && allowedDepartmentIds == old(allowedDepartmentIds)
    {
      permissions := permissions.(canAccessSignatureModule := checked);
    }

    /** Typing into the roles field replaces the roles by the parsed text. */
    method SetSignatureRoles(input: string)
      requires Valid()
      modifies this
      ensures Valid()
      ensures permissions == old(permissions).(signatureRoles := ParseRoles(input))
      ensures userType == old(userType) && allowedDepartmentIds == old(allowedDepartmentIds)
    {
      permissions := permissions.(signatureRoles := ParseRoles(input));
    }

    /**
     * `handleSave`: the user with only the three edited fields replaced; in
     * particular a user whose primary department was allowed keeps it allowed.
     */
    method HandleSave() returns (saved: User)
      requires Valid()
      ensures saved == user.(userType := userType, allowedDepartmentIds := allowedDepartmentIds, permissions := permissions)
      ensures saved.id == user.id && saved.departmentId == user.departmentId && saved.email == user.email
      ensures user.departmentId in user.allowedDepartmentIds ==> saved.departmentId in saved.allowedDepartmentIds
      ensures Distinct(saved.allowedDepartmentIds)
    {
      saved := user.(userType := userType, allowedDepartmentIds := allowedDepartmentIds, permissions := permissions);
    }
  }
}

/**
 * The administrator's page for editing a process type: its name and the
 * custom form fields, which can be added, changed and removed.
 */
module EditProcessType {
  import opened Common
  import opened Types
  import Text

  /** A `Partial<FormField>` of the editable attributes: what an input changes. */
  datatype FieldUpdate = FieldUpdate(labelText: Option<string>, kind: Option<FormFieldType>, required: Option<bool>)

  /** `{ ...f, ...updates }`. */
  function Merge(f: FormField, u: FieldUpdate): (r: FormField)
    ensures r.id == f.id
    ensures u == FieldUpdate(None, None, None) ==> r == f
  {
    FormField(f.id, u.labelText.GetOr(f.labelText), u.kind.GetOr(f.kind), u.required.GetOr(f.required))
  }

  function FieldIds(fields: seq<FormField>): seq<string> {
    Map(fields, (f: FormField) => f.id)
  }

  const NewFieldLabel := "Novo Campo"

  /** The field `addFormField` creates, its id made from the clock reading `now`. */
  function NewField(now: nat): (f: FormField)
    ensures f.labelText == NewFieldLabel && f.kind == FormFieldType.Text && !f.required
  {
    FormField("field_" + Text.NatToString(now), NewFieldLabel, FormFieldType.Text, false)
  }

  /** `addFormField`: one new field at the end, nothing else changed. */
  function AddFormField(pt: ProcessType, now: nat): (r: ProcessType)
    ensures r == pt.(formFields := r.formFields)
    ensures |r.formFields| == |pt.formFields| + 1
    ensures r.formFields[..|pt.formFields|] == pt.formFields && Last(r.formFields) == NewField(now)
  {
    pt.(formFields := pt.formFields + [NewField(now)])
  }

  /** `updateFormField`: the update merged into every field with that id; the length and ids unchanged. */
  function UpdateFormField(pt: ProcessType, fieldId: string, u: FieldUpdate): (r: ProcessType)
    ensures r == pt.(formFields := r.formFields)
    ensures |r.formFields| == |pt.formFields|
    ensures FieldIds(r.formFields) == FieldIds(pt.formFields)
    ensures forall i :: 0 <= i < |pt.formFields| && pt.formFields[i].id != fieldId ==> r.formFields[i] == pt.formFields[i]
    ensures forall i :: 0 <= i < |pt.formFields| && pt.formFields[i].id == fieldId ==> r.formFields[i] == Merge(pt.formFields[i], u)
  {
    pt.(formFields := Map(pt.formFields, (f: FormField) => if f.id == fieldId then Merge(f, u) else f))
  }

  /** `removeFormField`: every field with that id dropped, the others kept in order. */
  function RemoveFormField(pt: ProcessType, fieldId: string): (r: ProcessType)
    ensures r == pt.(formFields := r.formFields)
    ensures SubsequenceOf(r.formFields, pt.formFields)
    ensures forall f :: f in r.formFields <==> f in pt.formFields && f.id != fieldId
  {
    pt.(formFields := Filter(pt.formFields, HasOtherId(fieldId)))
  }

  function HasOtherId(fieldId: string): FormField -> bool {
    (f: FormField) => f.id != fieldId
  }

  /** Removing a field just added, under a fresh id, gives back the type. */
  lemma RemoveUndoesAdd(pt: ProcessType, now: nat)
    requires NewField(now).id !in FieldIds(pt.formFields)
    ensures RemoveFormField(AddFormField(pt, now), NewField(now).id) == pt
  {
    var id := NewField(now).id;
    forall f | f in pt.formFields ensures HasOtherId(id)(f) {
      var k :| 0 <= k < |pt.formFields| && pt.formFields[k] == f;
      assert FieldIds(pt.formFields)[k] == f.id;
    }
    FilterAll(pt.formFields, HasOtherId(id));
    FilterConcat(pt.formFields, [NewField(now)], HasOtherId(id));
    assert Filter([NewField(now)], HasOtherId(id)) == [];
  }

  /** Removing a field discards whatever updates it received. */
  lemma {:induction false} RemoveAfterUpdate(pt: ProcessType, fieldId: string, u: FieldUpdate)
    ensures RemoveFormField(UpdateFormField(pt, fieldId, u), fieldId) == RemoveFormField(pt, fieldId)
    decreases |pt.formFields|
  {
    if pt.formFields != [] {
      var rest := pt.(formFields := pt.formFields[1..]);
      RemoveAfterUpdate(rest, fieldId, u);
      var upd := UpdateFormField(pt, fieldId, u).formFields;
      assert upd[1..] == UpdateFormField(rest, fieldId, u).formFields;
    }
  }

  class EditProcessType {
    /** The type as edited so far. */
    var processType: ProcessType

    constructor(initial: ProcessType)
      ensures processType == initial
    {
      processType := initial;
    }

    method SetName(name: string)
      modifies this
      ensures processType == old(processType).(name := name)
    {
      processType := processType.(name := name);
    }

    method AddField(now: nat)
      modifies this
      ensures processType == AddFormField(old(processType), now)
    {
      processType := AddFormField(processType, now);
    }

    method UpdateField(fieldId: string, u: FieldUpdate)
      modifies this
      ensures processType == UpdateFormField(old(processType), fieldId, u)
    {
      processType := UpdateFormField(processType, fieldId, u);
    }

    method RemoveField(fieldId: string)
      modifies this
      ensures processType == RemoveFormField(old(processType), fieldId)
    {
      processType := RemoveFormField(processType, fieldId);
    }

    /** `handleSave`: the edited type is handed on as it stands. */
    method HandleSave() returns (saved: ProcessType)
      ensures saved == processType
    {
      saved := processType;
    }
  }

  /**
   * `handleUpdateProcessType`: the saved type replaces every type with its id.
   * With distinct ids the saved type is what a lookup by its id finds.
   */
  function UpdateProcessTypes(pts: seq<ProcessType>, updated: ProcessType): (r: seq<ProcessType>)
    ensures |r| == |pts|
    ensures forall i :: 0 <= i < |pts| ==> r[i] == if pts[i].id == updated.id then updated else pts[i]
    ensures Map(r, (pt: ProcessType) => pt.id) == Map(pts, (pt: ProcessType) => pt.id)
  {
    Map(pts, (pt: ProcessType) => if pt.id == updated.id then updated else pt)
  }

  lemma SavedTypeIsFound(pts: seq<ProcessType>, updated: ProcessType)
    requires DistinctBy(pts, (pt: ProcessType) => pt.id)
    requires exists pt :: pt in pts && pt.id == updated.id
    ensures Find(UpdateProcessTypes(pts, updated), (pt: ProcessType) => pt.id == updated.id) == Some(updated)
  {
    var r := UpdateProcessTypes(pts, updated);
    var pt :| pt in pts && pt.id == updated.id;
    var i :| 0 <= i < |pts| && pts[i] == pt;
    FindUnique(r, (q: ProcessType) => q.id == updated.id, i);
  }
}
