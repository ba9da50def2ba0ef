/**
 Which commands a user may run in a conversation: the lists of the config, the
 tags of the user, and tags that revoke.
 */
module Commands {
  /** commands_admin and commands_user: true, or a list. */
  datatype Setting = Everything | Listed(names: set<string>)

  /** A tag set that grants a command when the user has all of it; a single
      tag stands for the set of itself. */
  type Grant = set<string>

  type TagSets = map<string, set<Grant>>

  /** The dispatcher and the config that apply to a conversation. */
  datatype Config = Config(
    commands: set<string>, pluginAdmin: set<string>, pluginTags: TagSets,
    admin: Setting, user: Setting, tagged: TagSets, denyPrefix: string, escalate: bool)

  // ---------------------------------------------------------------- the closed form

  /** All tag sets of a command: those of the config if it is loaded, and the plugins'. */
  function GrantsOf(c: Config, name: string): set<Grant> {
    (if name in c.tagged && name in c.commands then c.tagged[name] else {})
    + (if name in c.pluginTags then c.pluginTags[name] else {})
  }

  /** The command has an entry among the tagged ones, be it an empty one. */
  predicate IsTagged(c: Config, name: string) {
    (name in c.tagged && name in c.commands) || name in c.pluginTags
  }

  /** The tags that take back what a grant gives. */
  function Revoking(prefix: string, grant: Grant): (r: set<string>)
    ensures forall tag :: tag in r <==> exists t :: t in grant && tag == prefix + t
  {
    set t | t in grant :: prefix + t
  }

  /** The tag set counts for the command: given by the config, if the command is loaded, or by a plugin. */
  predicate Counts(c: Config, name: string, grant: Grant) {
    (name in c.tagged && name in c.commands && grant in c.tagged[name]) || (name in c.pluginTags && grant in c.pluginTags[name])
  }

  /** The user has every tag of some tag set of the command. */
  ghost predicate HasGrant(c: Config, userTags: set<string>, name: string) {
    exists grant :: Counts(c, name, grant) && forall t :: t in grant ==> t in userTags
  }

  /** The user has every tag of some tag set of the command with the deny prefix. */
  ghost predicate HasRevocation(c: Config, userTags: set<string>, name: string) {
    exists grant :: Counts(c, name, grant) && forall t :: t in grant ==> c.denyPrefix + t in userTags
  }

  ghost predicate Granted(c: Config, userTags: set<string>, name: string) {
    exists grant :: grant in GrantsOf(c, name) && grant <= userTags
  }

  ghost predicate Denied(c: Config, userTags: set<string>, name: string) {
    exists grant :: grant in GrantsOf(c, name) && Revoking(c.denyPrefix, grant) <= userTags
  }

  /** The commands for admins, before tags. */
  function AdminBase(c: Config): set<string> {
    if c.admin.Everything? then c.commands
    else if c.user.Everything? then {}
    else if c.user.names != {} then c.commands - c.user.names
    else c.admin.names * c.commands + c.pluginAdmin
  }

  /** The commands for everybody, before tags. */
  function UserBase(c: Config): set<string> {
    if c.admin.Everything? then {}
    else if c.user.Everything? then c.commands
    else if c.user.names != {} then c.user.names * c.commands
    else c.commands - AdminBase(c)
  }

  /** The result for the part that is only open to admins and by grants. */
  ghost predicate AdminPart(c: Config, isAdmin: bool, userTags: set<string>, name: string) {
    if isAdmin then name in AdminBase(c) else Granted(c, userTags, name) && !Denied(c, userTags, name)
  }

  /** The result for the part that is open to everybody. */
  ghost predicate UserPart(c: Config, isAdmin: bool, userTags: set<string>, name: string) {
    && name in UserBase(c) && !AdminPart(c, isAdmin, userTags, name)
    && (!isAdmin ==> !Denied(c, userTags, name) && !(c.escalate && IsTagged(c, name)))
  }

  // ---------------------------------------------------------------- the computation

  /** The config's tags of loaded commands, and the plugins' tags. */
  method MergeTags(c: Config) returns (tagged: TagSets)
    ensures forall name :: name in tagged <==> IsTagged(c, name)
    ensures forall name :: name in tagged ==> tagged[name] == GrantsOf(c, name)
  {
    tagged := map name | name in c.tagged && name in c.commands :: c.tagged[name];
    var todo := c.pluginTags.Keys;
    while todo != {}
      invariant todo <= c.pluginTags.Keys
      invariant forall name :: name in tagged <==>
        (name in c.tagged && name in c.commands) || (name in c.pluginTags && name !in todo)
      invariant forall name :: name in tagged ==>
        tagged[name] == if name in todo then c.tagged[name] else GrantsOf(c, name)
    {
      var name :| name in todo;
      if name !in tagged {
        tagged := tagged[name := {}];
      }
      tagged := tagged[name := tagged[name] + c.pluginTags[name]];
      todo := todo - {name};
    }
  }

  /** The inner loop, over the tag sets of one command in any order. */
  method TryGrants(grants: set<Grant>, prefix: string, userTags: set<string>) returns (granted: bool, denied: bool)
    ensures denied <==> exists grant :: grant in grants && Revoking(prefix, grant) <= userTags
    ensures !denied ==> (granted <==> exists grant :: grant in grants && grant <= userTags)
    ensures granted ==> exists grant :: grant in grants && grant <= userTags
  {
    granted, denied := false, false;
    var todo := grants;
    while todo != {}
      invariant todo <= grants && !denied
      invariant granted <==> exists grant :: grant in grants - todo && grant <= userTags
      invariant forall grant :: grant in grants - todo ==> !(Revoking(prefix, grant) <= userTags)
    {
      var grant :| grant in todo;
      if grant <= userTags {
        granted := true;
      }
      if Revoking(prefix, grant) <= userTags {
        denied := true;
        break;
      }
      todo := todo - {grant};
    }
  }

  /** The loop over the tagged commands, in any order. */
  method ApplyTags(c: Config, tagged: TagSets, userTags: set<string>, user0: set<string>)
    returns (admin: set<string>, user: set<string>, denied: set<string>)
    requires forall name :: name in tagged <==> IsTagged(c, name)
    requires forall name :: name in tagged ==> tagged[name] == GrantsOf(c, name)
    ensures forall name :: name in denied <==> Denied(c, userTags, name)
    ensures forall name :: name !in denied ==> (name in admin <==> Granted(c, userTags, name))
    ensures forall name :: name in user <==> name in user0 && !(c.escalate && IsTagged(c, name))
  {
    admin, user, denied := {}, user0, {};
    var todo := tagged.Keys;
    while todo != {}
      invariant todo <= tagged.Keys
      invariant forall name :: name in denied <==> name in tagged && name !in todo && Denied(c, userTags, name)
      invariant forall name :: name !in denied ==> (name in admin <==> name in tagged && name !in todo && Granted(c, userTags, name))
      invariant forall name :: name in admin ==> name !in todo
      invariant forall name :: name in user <==> name in user0 && !(c.escalate && name in tagged && name !in todo)
    {
      var name :| name in todo;
      if c.escalate && name in user {
        user := user - {name};
      }
      var granted, revoked := TryGrants(tagged[name], c.denyPrefix, userTags);
      if granted {
        admin := admin + {name};
      }
      if revoked {
        denied := denied + {name};
      }
      todo := todo - {name};
    }
    forall name | Denied(c, userTags, name) || Granted(c, userTags, name) ensures name in tagged {}
  }

  /** get_available_commands */
  method GetAvailableCommands(c: Config, isAdmin: bool, userTags: set<string>) returns (admin: set<string>, user: set<string>)
    ensures forall name :: name in admin <==> AdminPart(c, isAdmin, userTags, name)
    ensures forall name :: name in user <==> UserPart(c, isAdmin, userTags, name)
    ensures admin !! user
    ensures c.admin.Everything? ==> user == {} && (isAdmin ==> admin == c.commands)
    ensures c.admin.Listed? && c.user.Everything? && isAdmin ==> admin == {} && user == c.commands
    ensures c.admin.Listed? && c.user.Listed? && c.user.names != {} && isAdmin ==>
      user == c.user.names * c.commands && admin == c.commands - c.user.names
    ensures c.admin.Listed? && c.user == Listed({}) && isAdmin ==>
      admin == c.admin.names * c.commands + c.pluginAdmin && user == c.commands - c.admin.names - c.pluginAdmin
    ensures !isAdmin ==> forall name :: name in admin <==> HasGrant(c, userTags, name) && !HasRevocation(c, userTags, name)
    ensures !isAdmin ==> forall name :: name in user <==> (
      && name in c.commands && c.admin.Listed?
      && (|| c.user.Everything?
          || (c.user.names != {} && name in c.user.names)
          || (c.user.names == {} && name !in c.admin.names && name !in c.pluginAdmin))
      && name !in admin && !HasRevocation(c, userTags, name)
      && !(c.escalate && (name in c.pluginTags || (name in c.tagged && name in c.commands))))
    ensures !isAdmin ==> forall name :: Denied(c, userTags, name) ==> name !in admin + user
  {
    var tagged := MergeTags(c);
    if c.admin.Everything? {
      admin, user := c.commands, {};
    } else if c.user.Everything? {
      user, admin := c.commands, {};
    } else if c.user.names != {} {
      user := c.user.names * c.commands;
      admin := c.commands - user;
    } else {
      admin := c.admin.names * c.commands;
      admin := admin + c.pluginAdmin;
      user := c.commands - admin;
    }
    assert admin == AdminBase(c) && user == UserBase(c);
    if !isAdmin {
      admin := {};
    }
    if tagged != map[] && !isAdmin {
      var denied;
      admin, user, denied := ApplyTags(c, tagged, userTags, user);
      admin := admin - denied;
      user := user - denied;
    } else if !isAdmin {
      forall name ensures !Granted(c, userTags, name) && !Denied(c, userTags, name) && !IsTagged(c, name) {
        assert name !in tagged;
      }
    }
    user := user - admin;
    forall name { TagsInWords(c, userTags, name); }
  }

  lemma TagsInWords(c: Config, userTags: set<string>, name: string)
    ensures Granted(c, userTags, name) <==> HasGrant(c, userTags, name)
    ensures Denied(c, userTags, name) <==> HasRevocation(c, userTags, name)
  {
    forall grant ensures grant in GrantsOf(c, name) <==> Counts(c, name, grant) {}
    forall grant: Grant ensures Revoking(c.denyPrefix, grant) <= userTags <==> forall t :: t in grant ==> c.denyPrefix + t in userTags {
      if Revoking(c.denyPrefix, grant) <= userTags {
        forall t | t in grant ensures c.denyPrefix + t in userTags {
          assert c.denyPrefix + t in Revoking(c.denyPrefix, grant);
        }
      }
    }
  }

  // ---------------------------------------------------------------- what it guarantees

  /** An admin is offered the loaded commands and no others, exactly if the
      config does not fall back to the plugins' admin commands or all of those
      are loaded. */
  lemma AdminsPartition(c: Config, userTags: set<string>)
    ensures (forall name :: name in c.commands <==> AdminPart(c, true, userTags, name) || UserPart(c, true, userTags, name))
      <==> (c.admin.Listed? && c.user == Listed({}) ==> c.pluginAdmin <= c.commands)
  {
    if c.admin.Listed? && c.user == Listed({}) && !(c.pluginAdmin <= c.commands) {
      var name :| name in c.pluginAdmin && name !in c.commands;
      assert AdminPart(c, true, userTags, name);
    }
  }

  /** A further tag never takes a command away, unless it completes a revocation. */
  lemma OnlyRevocationsTake(c: Config, userTags: set<string>, more: set<string>, name: string)
    requires userTags <= more && !Denied(c, more, name)
    ensures AdminPart(c, false, userTags, name) ==> AdminPart(c, false, more, name)
    ensures UserPart(c, false, userTags, name) ==> UserPart(c, false, more, name) || AdminPart(c, false, more, name)
  {
    if Granted(c, userTags, name) {
      var grant :| grant in GrantsOf(c, name) && grant <= userTags;
      assert grant <= more;
    }
  }

  /** A revocation holds against every further tag. */
  lemma RevocationsLast(c: Config, userTags: set<string>, more: set<string>, name: string)
    requires userTags <= more && Denied(c, userTags, name)
    ensures !AdminPart(c, false, more, name) && !UserPart(c, false, more, name)
  {
    var grant :| grant in GrantsOf(c, name) && Revoking(c.denyPrefix, grant) <= userTags;
    assert Revoking(c.denyPrefix, grant) <= more;
  }
}
