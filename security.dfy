/**
 * Roles and permissions: a many-to-many link kept on both sides, each side
 * a set of object references (neither class overrides equality, so two
 * objects are the same element only when they are the same object).
 */
module Security {
  class Permission {
    var name: string
    var description: string
    var moduleName: string
    var action: string
    var roles: set<Role>

    constructor (name: string, description: string, moduleName: string, action: string)
      ensures this.name == name && this.description == description
      ensures this.moduleName == moduleName && this.action == action
      ensures roles == {}
    {
      this.name := name;
      this.description := description;
      this.moduleName := moduleName;
      this.action := action;
      roles := {};
    }
  }

  class Role {
    var name: string
    var description: string
    var permissions: set<Permission>

    constructor (name: string, description: string)
      ensures this.name == name && this.description == description
      ensures permissions == {}
    {
      this.name := name;
      this.description := description;
      permissions := {};
    }

    /**
     * `addPermission`: the permission joins the role's set and the role
     * joins the permission's. Adding a link that is already there changes
     * nothing, so repeating the call is the same as calling once.
     */
    method AddPermission(p: Permission, ghost roles: set<Role>, ghost perms: set<Permission>)
      modifies this, p
      ensures permissions == old(permissions) + {p}
      ensures p.roles == old(p.roles) + {this}
      ensures name == old(name) && description == old(description)
      ensures p.name == old(p.name) && p.description == old(p.description)
      ensures p.moduleName == old(p.moduleName) && p.action == old(p.action)
      ensures p in old(permissions) && this in old(p.roles) ==>
        permissions == old(permissions) && p.roles == old(p.roles)
      ensures old(Consistent(roles, perms)) ==> Consistent(roles, perms)
    {
      permissions := permissions + {p};
      p.roles := p.roles + {this};
    }

    /**
     * `removePermission`: the link goes from both sides. Removing a link
     * that is not there changes nothing.
     */
    method RemovePermission(p: Permission, ghost roles: set<Role>, ghost perms: set<Permission>)
      modifies this, p
      ensures permissions == old(permissions) - {p}
      ensures p.roles == old(p.roles) - {this}
      ensures name == old(name) && description == old(description)
      ensures p.name == old(p.name) && p.description == old(p.description)
      ensures p.moduleName == old(p.moduleName) && p.action == old(p.action)
      ensures p !in old(permissions) && this !in old(p.roles) ==>
        permissions == old(permissions) && p.roles == old(p.roles)
      ensures old(Consistent(roles, perms)) ==> Consistent(roles, perms)
    {
      permissions := permissions - {p};
      p.roles := p.roles - {this};
    }
  }

  /**
   * Every link among these roles and permissions is recorded on both sides:
   * a role lists a permission exactly when the permission lists the role.
   */
  ghost predicate Consistent(roles: set<Role>, perms: set<Permission>)
    reads roles, perms
  {
    forall r, p | r in roles && p in perms :: p in r.permissions <==> r in p.roles
  }
}
