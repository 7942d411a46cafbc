/** The user and role administration screen: a local list of users, and one
    form that either adds a user or, after "edit", rewrites the user being
    edited. Nothing is sent to a backend. */
module Roles {
  import opened Wrappers
  import Lists

  datatype Role = Admin | Moderator | User

  datatype UserRole = UserRole(id: string, name: string, email: string, role: Role)

  /** The form: a user without its id. */
  datatype UserForm = UserForm(name: string, email: string, role: Role)

  /** The text inputs of the form. */
  datatype FormField = NameField | EmailField

  function UserId(u: UserRole): string
  {
    u.id
  }

  /** The form after a submit or a cancel: empty texts, role `User`. */
  function BlankForm(): UserForm
  {
    UserForm("", "", User)
  }

  /** The two users the screen starts with. */
  function InitialUsers(): seq<UserRole>
  {
    [UserRole("1", "Admin Principal", "admin@miseventos.com", Admin),
     UserRole("2", "Juan Manuel", "juan@demo.com", User)]
  }

  /** `{ ...u, ...formData }`: the user keeps its id and takes the form. */
  function Rewritten(u: UserRole, f: UserForm): UserRole
  {
    UserRole(u.id, f.name, f.email, f.role)
  }

  /** The ids of the users, in order. */
  function Ids(users: seq<UserRole>): (ids: seq<string>)
    ensures |ids| == |users| && forall k :: 0 <= k < |users| ==> ids[k] == users[k].id
  {
    if users == [] then [] else [users[0].id] + Ids(users[1..])
  }

  predicate DistinctIds(users: seq<UserRole>)
  {
    forall i, j :: 0 <= i < j < |users| ==> users[i].id != users[j].id
  }

  /** `editingId` is truthy: a user is being edited. */
  predicate Editing(editingId: Option<string>)
  {
    editingId.Some? && editingId.value != ""
  }

  class RoleScreen {
    var users: seq<UserRole>
    var formData: UserForm
    var editingId: Option<string>

    constructor()
      ensures users == InitialUsers() && formData == BlankForm() && editingId.None?
    {
      users := InitialUsers();
      formData := BlankForm();
      editingId := None;
    }

    /** `handleInputChange` from a text input. */
    method HandleInputChange(f: FormField, value: string)
      modifies this`formData
      ensures formData == match f
                          case NameField => old(formData).(name := value)
                          case EmailField => old(formData).(email := value)
    {
      formData := match f
                  case NameField => formData.(name := value)
                  case EmailField => formData.(email := value);
    }

    /** `handleInputChange` from the role select. */
    method HandleRoleChange(role: Role)
      modifies this`formData
      ensures formData == old(formData).(role := role)
    {
      formData := formData.(role := role);
    }

    /** `handleSubmit`. A form with an empty name or e-mail changes nothing.
        Otherwise, while a user is being edited, the users with that id take the
        form and keep their id, nobody else changes, and editing ends; when none
        is, one user with the fresh id is appended. Either way the form is
        cleared. The texts are not trimmed. */
    method HandleSubmit(freshId: string) returns (accepted: bool)
      modifies this`users, this`formData, this`editingId
      ensures accepted <==> old(formData).name != [] && old(formData).email != []
      ensures !accepted ==> users == old(users) && formData == old(formData) && editingId == old(editingId)
      ensures accepted ==> formData == BlankForm()
      ensures accepted && Editing(old(editingId)) ==>
                editingId.None? && |users| == |old(users)| &&
                (forall k :: 0 <= k < |users| ==>
                   users[k] == if old(users)[k].id == old(editingId).value then Rewritten(old(users)[k], old(formData)) else old(users)[k])
      ensures accepted && Editing(old(editingId)) ==> Ids(users) == Ids(old(users))
      ensures accepted && !Editing(old(editingId)) ==>
                editingId == old(editingId) && users == old(users) + [UserRole(freshId, old(formData).name, old(formData).email, old(formData).role)]
      ensures accepted && !Editing(old(editingId)) && DistinctIds(old(users)) && freshId !in Ids(old(users)) ==>
                DistinctIds(users)
    {
      if formData.name == [] || formData.email == [] {
        return false;
      }
      accepted := true;
      if Editing(editingId) {
        var id := editingId.value;
        var form := formData;
        users := Lists.ReplaceWhere(users, id, UserId, (u: UserRole) => Rewritten(u, form));
        editingId := None;
      } else {
        var newUser := UserRole(freshId, formData.name, formData.email, formData.role);
        users := users + [newUser];
      }
      formData := BlankForm();
    }

    /** `handleEdit`: the user's id is being edited and the form holds its fields. */
    method HandleEdit(user: UserRole)
      modifies this`formData, this`editingId
      ensures editingId == Some(user.id)
      ensures formData == UserForm(user.name, user.email, user.role)
    {
      editingId := Some(user.id);
      formData := UserForm(user.name, user.email, user.role);
    }

    /** `handleDelete`: once confirmed, every user with the id goes; otherwise
        nothing changes. Editing is not ended. */
    method HandleDelete(id: string, confirmed: bool)
      modifies this`users
      ensures confirmed ==> users == Lists.Without(old(users), id, UserId)
      ensures !confirmed ==> users == old(users)
    {
      if confirmed {
        users := Lists.Without(users, id, UserId);
      }
    }

    /** `cancelEdit`: editing ends and the form is cleared. */
    method CancelEdit()
      modifies this`formData, this`editingId
      ensures editingId.None? && formData == BlankForm()
    {
      editingId := None;
      formData := BlankForm();
    }
  }
}
