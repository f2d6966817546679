/**
 * internal/models/role.go: roles, permissions, their outward projections and
 * the bounds of their request payloads.
 */
module RoleModel {
  import opened Common
  import UserModel

  /** A row of `roles`, with the relations GORM may preload. */
  datatype Role = Role(
    id: nat,
    name: string,
    description: string,
    isActive: bool,
    createdAt: Time,
    updatedAt: Time,
    deletedAt: Option<Time>,
    permissions: seq<Permission>,
    users: seq<UserModel.User>)

  /** A row of `permissions`, with the roles GORM may preload. */
  datatype Permission = Permission(
    id: nat,
    name: string,
    description: string,
    resource: string,
    action: string,
    createdAt: Time,
    updatedAt: Time,
    deletedAt: Option<Time>,
    roles: seq<Role>)

  datatype PermissionResponse = PermissionResponse(
    id: nat,
    name: string,
    description: string,
    resource: string,
    action: string,
    createdAt: Time,
    updatedAt: Time)

  /** `permissions` is a nil slice (omitted from JSON) unless the role has permissions. */
  datatype RoleResponse = RoleResponse(
    id: nat,
    name: string,
    description: string,
    isActive: bool,
    createdAt: Time,
    updatedAt: Time,
    permissions: Option<seq<PermissionResponse>>)

  function PermissionToResponse(p: Permission): PermissionResponse {
    PermissionResponse(p.id, p.name, p.description, p.resource, p.action, p.createdAt, p.updatedAt)
  }

  /** Two permissions project alike iff they agree on the seven copied fields. */
  lemma PermissionToResponseKeepsFields(p: Permission, q: Permission)
    ensures PermissionToResponse(p) == PermissionToResponse(q) <==>
      p.(deletedAt := q.deletedAt, roles := q.roles) == q
  {
  }

  /** The elementwise projection of a permission list. */
  function PermissionsToResponses(ps: seq<Permission>): (rs: seq<PermissionResponse>)
    ensures |rs| == |ps|
    ensures forall i :: 0 <= i < |ps| ==> rs[i] == PermissionToResponse(ps[i])
  {
    seq(|ps|, i requires 0 <= i < |ps| => PermissionToResponse(ps[i]))
  }

  /**
   * Role.ToResponse: copy the role's own fields and, only when permissions are
   * loaded, fill a fresh slice with their projections in order.
   */
  method RoleToResponse(r: Role) returns (resp: RoleResponse)
    ensures resp.id == r.id && resp.name == r.name && resp.description == r.description
    ensures resp.isActive == r.isActive && resp.createdAt == r.createdAt && resp.updatedAt == r.updatedAt
    ensures resp.permissions.None? <==> |r.permissions| == 0
    ensures resp.permissions.Some? ==>
      && |resp.permissions.value| == |r.permissions|
      && forall i :: 0 <= i < |r.permissions| ==>
           resp.permissions.value[i] == PermissionToResponse(r.permissions[i])
  {
    resp := RoleResponse(r.id, r.name, r.description, r.isActive, r.createdAt, r.updatedAt, None);
    if |r.permissions| > 0 {
      var out := new PermissionResponse[|r.permissions|];
      var i := 0;
      while i < |r.permissions|
        invariant 0 <= i <= |r.permissions|
        invariant forall j :: 0 <= j < i ==> out[j] == PermissionToResponse(r.permissions[j])
      {
        out[i] := PermissionToResponse(r.permissions[i]);
        i := i + 1;
      }
      resp := resp.(permissions := Some(out[..]));
    }
  }

  // ---------------------------------------------------------------------------
  // Request payloads
  // ---------------------------------------------------------------------------

  datatype RoleCreateRequest = RoleCreateRequest(name: string, description: string)
  datatype RoleUpdateRequest = RoleUpdateRequest(
    name: Option<string>, description: Option<string>, isActive: Option<bool>)
  datatype PermissionCreateRequest = PermissionCreateRequest(
    name: string, description: string, resource: string, action: string)
  datatype PermissionUpdateRequest = PermissionUpdateRequest(
    name: Option<string>, description: Option<string>, resource: Option<string>, action: Option<string>)
  datatype AssignRoleRequest = AssignRoleRequest(userId: nat, roleIds: Option<seq<nat>>)
  datatype AssignPermissionRequest = AssignPermissionRequest(roleId: nat, permissionIds: Option<seq<nat>>)

  predicate RoleCreateRequestValid(req: RoleCreateRequest) {
    1 <= |req.name| <= 100 && |req.description| <= 255
  }

  predicate RoleUpdateRequestValid(req: RoleUpdateRequest) {
    && (req.name.Some? ==> 1 <= |req.name.value| <= 100)
    && (req.description.Some? ==> |req.description.value| <= 255)
  }

  predicate PermissionCreateRequestValid(req: PermissionCreateRequest) {
    && 1 <= |req.name| <= 100 && |req.description| <= 255
    && 1 <= |req.resource| <= 100 && 1 <= |req.action| <= 50
  }

  predicate PermissionUpdateRequestValid(req: PermissionUpdateRequest) {
    && (req.name.Some? ==> 1 <= |req.name.value| <= 100)
    && (req.description.Some? ==> |req.description.value| <= 255)
    && (req.resource.Some? ==> 1 <= |req.resource.value| <= 100)
    && (req.action.Some? ==> 1 <= |req.action.value| <= 50)
  }

  /** `required` on an id is "non-zero"; `required,min=1` on a slice is "non-nil with an element". */
  predicate AssignRoleRequestValid(req: AssignRoleRequest) {
    req.userId != 0 && req.roleIds.Some? && |req.roleIds.value| >= 1
  }

  predicate AssignPermissionRequestValid(req: AssignPermissionRequest) {
    req.roleId != 0 && req.permissionIds.Some? && |req.permissionIds.value| >= 1
  }

  /** The `size:` tags of the `roles` and `permissions` columns. */
  predicate RoleFitsColumns(r: Role) {
    |r.name| <= 100 && |r.description| <= 255
  }

  predicate PermissionFitsColumns(p: Permission) {
    |p.name| <= 100 && |p.description| <= 255 && |p.resource| <= 100 && |p.action| <= 50
  }

  /**
   * The request bounds agree with the column sizes: a role or permission built
   * from a valid create request, or changed by a valid update request, fits its
   * table.
   */
  lemma RequestBoundsFitColumns(r: Role, rreq: RoleCreateRequest, rup: RoleUpdateRequest,
                                p: Permission, preq: PermissionCreateRequest, pup: PermissionUpdateRequest)
    requires RoleCreateRequestValid(rreq) && RoleUpdateRequestValid(rup)
    requires PermissionCreateRequestValid(preq) && PermissionUpdateRequestValid(pup)
    ensures RoleFitsColumns(r.(name := rreq.name, description := rreq.description))
    ensures RoleFitsColumns(r) ==>
      RoleFitsColumns(r.(name := if rup.name.Some? then rup.name.value else r.name,
                         description := if rup.description.Some? then rup.description.value else r.description))
    ensures PermissionFitsColumns(p.(name := preq.name, description := preq.description,
                                     resource := preq.resource, action := preq.action))
    ensures PermissionFitsColumns(p) ==>
      PermissionFitsColumns(p.(name := if pup.name.Some? then pup.name.value else p.name,
                               description := if pup.description.Some? then pup.description.value else p.description,
                               resource := if pup.resource.Some? then pup.resource.value else p.resource,
                               action := if pup.action.Some? then pup.action.value else p.action))
  {
  }

  /**
   * An assignment must name its target and at least one id: a zero target, a
   * missing list and an empty list are each refused, and one id is enough.
   */
  lemma AssignRequestsNeedTargets(target: nat, ids: seq<nat>)
    ensures !AssignRoleRequestValid(AssignRoleRequest(0, Some(ids)))
    ensures !AssignRoleRequestValid(AssignRoleRequest(target, None))
    ensures !AssignRoleRequestValid(AssignRoleRequest(target, Some([])))
    ensures target != 0 && ids != [] ==> AssignRoleRequestValid(AssignRoleRequest(target, Some(ids)))
    ensures !AssignPermissionRequestValid(AssignPermissionRequest(0, Some(ids)))
    ensures !AssignPermissionRequestValid(AssignPermissionRequest(target, None))
    ensures !AssignPermissionRequestValid(AssignPermissionRequest(target, Some([])))
    ensures target != 0 && ids != [] ==> AssignPermissionRequestValid(AssignPermissionRequest(target, Some(ids)))
  {
  }
}
