/**
 * The authorisation gate of the planner (canManagePlanner) and the role
 * helpers that decide what a requester's role is (map_role_and_super,
 * compute_role).
 *
 * The teacher-class-subject assignment table is an external directory; the
 * gate only asks whether a row linking the requester to the class and subject
 * exists.
 */
module Authorization {
  import opened Common

  /** The authenticated user as the handlers see it: `id`, `role` and
      `is_super_admin` (missing fields read as 0 / ""). */
  datatype Requester = Requester(id: int, role: string, superAdmin: int)

  /** A row of teacher_class_subject_assignments. */
  datatype TeacherAssignment = TeacherAssignment(id: int, classId: int, subjectId: int, teacherUserId: int)

  predicate IsSuperAdmin(req: Requester)
  {
    req.superAdmin == 1
  }

  /** `strtolower($requester['role'] ?? '')` (not trimmed). */
  function RoleWord(req: Requester): string
  {
    Lower(req.role)
  }

  predicate IsStaffRole(w: string)
  {
    w == "admin" || w == "teacher"
  }

  predicate HasAssignment(dir: seq<TeacherAssignment>, classId: int, subjectId: int, teacherId: int)
  {
    exists a :: a in dir && a.classId == classId && a.subjectId == subjectId && a.teacherUserId == teacherId
  }

  /** The reason code behind each decision the gate logs. */
  datatype Decision =
    | AllowedSuperAdmin
    | DeniedRole
    | DeniedNoUserId
    | AllowedAssignment
    | AllowedAdminOverride
    | DeniedNoAssignment

  predicate Allows(d: Decision)
  {
    d == AllowedSuperAdmin || d == AllowedAssignment || d == AllowedAdminOverride
  }

  /** The decision table, checked in the source's order. */
  function ManageDecision(req: Requester, classId: int, subjectId: int, dir: seq<TeacherAssignment>): (d: Decision)
    ensures d == AllowedSuperAdmin <==> IsSuperAdmin(req)
    ensures d == DeniedRole <==> !IsSuperAdmin(req) && !IsStaffRole(RoleWord(req))
    ensures d == DeniedNoUserId <==> !IsSuperAdmin(req) && IsStaffRole(RoleWord(req)) && req.id <= 0
    ensures d == AllowedAssignment <==>
      !IsSuperAdmin(req) && IsStaffRole(RoleWord(req)) && req.id > 0 && HasAssignment(dir, classId, subjectId, req.id)
    ensures d == AllowedAdminOverride <==>
      !IsSuperAdmin(req) && RoleWord(req) == "admin" && req.id > 0 && !HasAssignment(dir, classId, subjectId, req.id)
    ensures d == DeniedNoAssignment <==>
      !IsSuperAdmin(req) && RoleWord(req) == "teacher" && req.id > 0 && !HasAssignment(dir, classId, subjectId, req.id)
  {
    var role := RoleWord(req);
    if IsSuperAdmin(req) then AllowedSuperAdmin
    else if !IsStaffRole(role) then DeniedRole
    else if req.id <= 0 then DeniedNoUserId
    else if HasAssignment(dir, classId, subjectId, req.id) then AllowedAssignment
    else if role == "admin" then AllowedAdminOverride
    else DeniedNoAssignment
  }

  /** canManagePlanner: may this requester write the plan of (classId, subjectId)? */
  function CanManagePlanner(req: Requester, classId: int, subjectId: int, dir: seq<TeacherAssignment>): (ok: bool)
    ensures IsSuperAdmin(req) ==> ok
    ensures !IsSuperAdmin(req) && !IsStaffRole(RoleWord(req)) ==> !ok
    ensures !IsSuperAdmin(req) && req.id <= 0 ==> !ok
    ensures IsStaffRole(RoleWord(req)) && req.id > 0 && HasAssignment(dir, classId, subjectId, req.id) ==> ok
    ensures RoleWord(req) == "admin" && req.id > 0 ==> ok
    ensures !IsSuperAdmin(req) && RoleWord(req) == "teacher" && !HasAssignment(dir, classId, subjectId, req.id) ==> !ok
  {
    Allows(ManageDecision(req, classId, subjectId, dir))
  }

  /** Read-only viewers of plans and coverage: students, parents and guardians
      who cannot manage (getPlannerData, listClassAssessments). */
  predicate CanViewOnly(req: Requester, canManage: bool)
  {
    !canManage && (RoleWord(req) == "student" || RoleWord(req) == "parent" || RoleWord(req) == "guardian")
  }

  // ---------------------------------------------------------------------
  // Roles
  // ---------------------------------------------------------------------

  /** The stored role and super-admin flag. */
  datatype RoleInfo = RoleInfo(role: string, superAdmin: int)

  /** map_role_and_super: the UI label "Teacher" is a non-super Admin, the label
      "Admin" a super Admin, and every other label a Student. */
  function MapRoleAndSuper(uiLabel: string): (r: RoleInfo)
    ensures Word(uiLabel) == "teacher" ==> r == RoleInfo("Admin", 0)
    ensures Word(uiLabel) == "admin" ==> r == RoleInfo("Admin", 1)
    ensures Word(uiLabel) != "teacher" && Word(uiLabel) != "admin" ==> r == RoleInfo("Student", 0)
  {
    var w := Word(uiLabel);
    if w == "teacher" then RoleInfo("Admin", 0)
    else if w == "admin" then RoleInfo("Admin", 1)
    else RoleInfo("Student", 0)
  }

  /** compute_role: membership of the admins table (which carries the
      super-admin flag) wins over the teachers table, which wins over students;
      a user in none of them is a Student. */
  function ComputeRole(adminSuperFlag: Option<int>, inTeachers: bool, inStudents: bool): (r: RoleInfo)
    ensures adminSuperFlag.Some? ==> r == RoleInfo("Admin", adminSuperFlag.value)
    ensures adminSuperFlag.None? && inTeachers ==> r == RoleInfo("Admin", 0)
    ensures adminSuperFlag.None? && !inTeachers ==> r == RoleInfo("Student", 0)
  {
    if adminSuperFlag.Some? then RoleInfo("Admin", adminSuperFlag.value)
    else if inTeachers then RoleInfo("Admin", 0)
    else if inStudents then RoleInfo("Student", 0)
    else RoleInfo("Student", 0)
  }

  /** Because compute_role never yields the word "teacher", every teacher is an
      "admin" to the gate: the admin override lets any authenticated teacher
      manage every class and subject, and the assignment check never denies. */
  lemma ComputedTeacherManagesEverything(id: int, inStudents: bool, classId: int, subjectId: int, dir: seq<TeacherAssignment>)
    requires id > 0
    ensures var info := ComputeRole(None, true, inStudents);
            ManageDecision(Requester(id, info.role, info.superAdmin), classId, subjectId, dir) != DeniedNoAssignment
            && CanManagePlanner(Requester(id, info.role, info.superAdmin), classId, subjectId, dir)
  {
    var info := ComputeRole(None, true, inStudents);
    assert RoleWord(Requester(id, info.role, info.superAdmin)) == "admin";
  }

  /** A user who is neither an admin nor a teacher can never manage a plan. */
  lemma ComputedStudentNeverManages(id: int, inStudents: bool, classId: int, subjectId: int, dir: seq<TeacherAssignment>)
    ensures var info := ComputeRole(None, false, inStudents);
            !CanManagePlanner(Requester(id, info.role, info.superAdmin), classId, subjectId, dir)
  {
    var info := ComputeRole(None, false, inStudents);
    assert RoleWord(Requester(id, info.role, info.superAdmin)) == "student";
  }
}
