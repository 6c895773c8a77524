/** Securing the user settings: every user gets the sections it must have, and no plain password next to
    its hash (normalizeConfigurationUsers, controllers/daisymanager/normalizer.go). */
module Users {
  import opened Commons
  import opened Text
  import opened Paths
  import opened Settings

  datatype User = User(name: string)

  const DEFAULT_USER := User("default")
  const REMOVED := Scalar("_removed_")

  /** The operator's defaults, and the hex form of the SHA-256 of a password. */
  datatype Config = Config(
    profile: string, quota: string, networksIP: seq<string>, hostRegexp: string, password: string,
    sha256Hex: string -> string)

  datatype Leaf = Profile | Quota | Ip | HostRegexp | Password | Sha

  function LeafText(l: Leaf): string
  {
    match l
    case Profile => "profile"
    case Quota => "quota"
    case Ip => "networks/ip"
    case HostRegexp => "networks/host_regexp"
    case Password => "password"
    case Sha => "password_sha256_hex"
  }

  function UserPath(u: User, l: Leaf): Path
  {
    Path(u.name + "/" + LeafText(l))
  }

  /** The first tag of a path. */
  function Owner(p: Path): User
  {
    User(Split(p.text, '/')[0])
  }

  function At(m: Entries, p: Path): Option<Setting>
  {
    if p in m then Some(m[p]) else None
  }

  /** Setting.String. */
  function SettingText(s: Setting): string
  {
    match s
    case Scalar(v) => v
    case Vector(vs) => Join(vs, ",")
  }

  /** The users named by the paths, and the default user. */
  predicate IsUser(m: Entries, u: User)
  {
    u == DEFAULT_USER || exists p | p in m :: |Split(p.text, '/')| >= 2 && Owner(p) == u
  }

  // ---- one user ----

  function Ensure(m: Entries, p: Path, s: Setting): Entries
  {
    if p in m then m else m[p := s]
  }

  function MustHave(m: Entries, u: User, cfg: Config): Entries
  {
    var m1 := Ensure(m, UserPath(u, Profile), Scalar(cfg.profile));
    var m2 := Ensure(m1, UserPath(u, Quota), Scalar(cfg.quota));
    var m3 := Ensure(m2, UserPath(u, Ip), Vector(cfg.networksIP));
    Ensure(m3, UserPath(u, HostRegexp), Scalar(cfg.hostRegexp))
  }

  /** The plain password in force for a user. */
  function PlainPassword(m: Entries, u: User, cfg: Config): string
  {
    if UserPath(u, Password) in m then SettingText(m[UserPath(u, Password)])
    else if u != DEFAULT_USER then cfg.password
    else ""
  }

  function HidePassword(m: Entries, u: User, cfg: Config): Entries
  {
    var pass := PlainPassword(m, u, cfg);
    var hashed := if pass != "" then Ensure(m, UserPath(u, Sha), Scalar(cfg.sha256Hex(pass))) else m;
    if UserPath(u, Sha) !in hashed then hashed
    else if u == DEFAULT_USER then hashed[UserPath(u, Password) := REMOVED]
    else hashed - {UserPath(u, Password)}
  }

  function SecureUser(m: Entries, u: User, cfg: Config): Entries
  {
    HidePassword(MustHave(m, u, cfg), u, cfg)
  }

  // ---- all users ----

  /** Every user is secured as if it were the only one; nothing else changes. */
  ghost predicate IsSecured(now: Entries, m: Entries, cfg: Config)
  {
    forall p :: At(now, p) == SecuredAt(m, p, cfg)
  }

  ghost function SecuredAt(m: Entries, p: Path, cfg: Config): Option<Setting>
  {
    if IsUser(m, Owner(p)) then At(SecureUser(m, Owner(p), cfg), p) else At(m, p)
  }

  class Normalizer {
    const cfg: Config

    constructor (cfg: Config)
      ensures this.cfg == cfg
    {
      this.cfg := cfg;
    }

    /** The loop that collects the user names. */
    method UserNames(m: Entries) returns (users: set<User>)
      ensures forall u :: u in users <==> IsUser(m, u)
    {
      users := {};
      var todo := m.Keys;
      while todo != {}
        invariant todo <= m.Keys
        invariant forall u :: u in users <==> exists p | p in m :: p !in todo && |Split(p.text, '/')| >= 2 && Owner(p) == u
        decreases todo
      {
        var p := Pick(todo);
        var tags := Split(p.text, '/');
        ghost var before := todo;
        todo := todo - {p};
        assert forall q :: q !in todo <==> q !in before || q == p;
        if |tags| >= 2 {
          users := users + {User(tags[0])};
        }
      }
      users := users + {DEFAULT_USER};
    }

    method EnsureEntry(users: SettingsMap, p: Path, s: Setting)
      modifies users
      ensures users.entries == Ensure(old(users.entries), p, s)
    {
      if p !in users.entries {
        users.entries := users.entries[p := s];
      }
    }

    /** The password part of the loop body. */
    method HideOne(users: SettingsMap, u: User)
      modifies users
      ensures users.entries == HidePassword(old(users.entries), u, cfg)
    {
      var pass := "";
      if UserPath(u, Password) in users.entries {
        pass := SettingText(users.entries[UserPath(u, Password)]);
      } else if u != DEFAULT_USER {
        pass := cfg.password;
      }
      var okPasswordSHA256 := UserPath(u, Sha) in users.entries;
      if pass != "" && !okPasswordSHA256 {
        users.entries := users.entries[UserPath(u, Sha) := Scalar(cfg.sha256Hex(pass))];
        okPasswordSHA256 := true;
      }
      if okPasswordSHA256 {
        if u == DEFAULT_USER {
          users.entries := users.entries[UserPath(u, Password) := REMOVED];
        } else {
          users.entries := users.entries - {UserPath(u, Password)};
        }
      }
    }

    /** The loop body. */
    method SecureOne(users: SettingsMap, u: User)
      modifies users
      ensures users.entries == SecureUser(old(users.entries), u, cfg)
    {
      EnsureEntry(users, UserPath(u, Profile), Scalar(cfg.profile));
      EnsureEntry(users, UserPath(u, Quota), Scalar(cfg.quota));
      EnsureEntry(users, UserPath(u, Ip), Vector(cfg.networksIP));
      EnsureEntry(users, UserPath(u, HostRegexp), Scalar(cfg.hostRegexp));
      HideOne(users, u);
    }

    /** normalizeConfigurationUsers. */
    method NormalizeConfigurationUsers(users: SettingsMap)
      modifies users
      ensures exists normal ::
        NormalizationOf(normal, old(users.entries)) && IsSecured(users.entries, normal, cfg)
    {
      users.NormalizePaths();
      ghost var normal := users.entries;
      var names := UserNames(users.entries);
      NormalizedKeys(normal, old(users.entries));
      var todo := names;
      while todo != {}
        invariant todo <= names
        invariant SecuredBut(users.entries, normal, todo, cfg)
        decreases todo
      {
        var u := Pick(todo);
        SecureNext(users.entries, normal, todo, u, cfg);
        SecureOne(users, u);
        todo := todo - {u};
      }
    }
  }

  /** Secured, except for the users still to be visited. */
  ghost predicate SecuredBut(now: Entries, m: Entries, todo: set<User>, cfg: Config)
  {
    forall p :: At(now, p) == if Owner(p) in todo then At(m, p) else SecuredAt(m, p, cfg)
  }

  predicate PlainName(u: User)
  {
    u.name != "" && '/' !in u.name
  }

  lemma UserPathOwner(u: User, l: Leaf)
    requires PlainName(u)
    ensures Owner(UserPath(u, l)) == u && |Split(UserPath(u, l).text, '/')| >= 2
  {
    assert u.name + "/" + LeafText(l) == u.name + ['/'] + LeafText(l);
    SplitAppend(u.name, LeafText(l), '/');
    SplitWithout(u.name, '/');
  }

  /** Securing a user touches only paths that user owns, and looks only at those. */
  lemma SecureIsLocal(m: Entries, u: User, cfg: Config, p: Path)
    requires PlainName(u) && Owner(p) != u
    ensures At(SecureUser(m, u, cfg), p) == At(m, p)
  {
    forall l: Leaf {
      UserPathOwner(u, l);
    }
  }

  lemma EnsureAgrees(m: Entries, n: Entries, q: Path, s: Setting, u: User)
    requires forall p | Owner(p) == u :: At(m, p) == At(n, p)
    requires Owner(q) == u
    ensures forall p | Owner(p) == u :: At(Ensure(m, q, s), p) == At(Ensure(n, q, s), p)
  {
    assert At(m, q) == At(n, q);
  }

  lemma SecureAgrees(m: Entries, n: Entries, u: User, cfg: Config, p: Path)
    requires PlainName(u) && Owner(p) == u
    requires forall q | Owner(q) == u :: At(m, q) == At(n, q)
    ensures At(SecureUser(m, u, cfg), p) == At(SecureUser(n, u, cfg), p)
  {
    forall l: Leaf {
      UserPathOwner(u, l);
    }
    EnsureAgrees(m, n, UserPath(u, Profile), Scalar(cfg.profile), u);
    var m1, n1 := Ensure(m, UserPath(u, Profile), Scalar(cfg.profile)), Ensure(n, UserPath(u, Profile), Scalar(cfg.profile));
    EnsureAgrees(m1, n1, UserPath(u, Quota), Scalar(cfg.quota), u);
    var m2, n2 := Ensure(m1, UserPath(u, Quota), Scalar(cfg.quota)), Ensure(n1, UserPath(u, Quota), Scalar(cfg.quota));
    EnsureAgrees(m2, n2, UserPath(u, Ip), Vector(cfg.networksIP), u);
    var m3, n3 := Ensure(m2, UserPath(u, Ip), Vector(cfg.networksIP)), Ensure(n2, UserPath(u, Ip), Vector(cfg.networksIP));
    EnsureAgrees(m3, n3, UserPath(u, HostRegexp), Scalar(cfg.hostRegexp), u);
    HideAgrees(MustHave(m, u, cfg), MustHave(n, u, cfg), u, cfg, p);
  }

  lemma HideAgrees(m: Entries, n: Entries, u: User, cfg: Config, p: Path)
    requires PlainName(u) && Owner(p) == u
    requires forall q | Owner(q) == u :: At(m, q) == At(n, q)
    ensures At(HidePassword(m, u, cfg), p) == At(HidePassword(n, u, cfg), p)
  {
    UserPathOwner(u, Password);
    UserPathOwner(u, Sha);
    assert At(m, UserPath(u, Password)) == At(n, UserPath(u, Password));
    assert At(m, UserPath(u, Sha)) == At(n, UserPath(u, Sha));
    assert At(m, p) == At(n, p);
  }

  /** One step of the loop over the users: which user comes next does not matter. */
  lemma SecureNext(now: Entries, m: Entries, todo: set<User>, u: User, cfg: Config)
    requires AllNormal(m) && u in todo && forall v | v in todo :: IsUser(m, v)
    requires SecuredBut(now, m, todo, cfg)
    ensures SecuredBut(SecureUser(now, u, cfg), m, todo - {u}, cfg)
  {
    UsersArePlain(m, u);
    forall p
      ensures At(SecureUser(now, u, cfg), p) == if Owner(p) in todo - {u} then At(m, p) else SecuredAt(m, p, cfg)
    {
      if Owner(p) == u {
        SecureAgrees(now, m, u, cfg, p);
      } else {
        SecureIsLocal(now, u, cfg, p);
      }
    }
  }

  lemma UsersArePlain(m: Entries, u: User)
    requires AllNormal(m) && IsUser(m, u)
    ensures PlainName(u)
  {
    if u != DEFAULT_USER {
      var p :| p in m && |Split(p.text, '/')| >= 2 && Owner(p) == u;
      LengthTestIsExact(p.text);
      NormalHasNoEmptyPart(p.text);
      FirstPartNonEmpty(Split(p.text, '/'));
    }
  }

  lemma FirstPartNonEmpty(parts: seq<string>)
    requires parts != [] && NonEmpty(parts) == parts
    ensures parts[0] != ""
  {
    NonEmptyLength(parts[1..]);
  }

  // ---- what a secured user looks like ----

  lemma LeavesApart(u: User)
    ensures forall l: Leaf, k: Leaf :: UserPath(u, l) == UserPath(u, k) ==> l == k
  {
    forall l: Leaf, k: Leaf | UserPath(u, l) == UserPath(u, k)
      ensures l == k
    {
      assert |UserPath(u, l).text| == |u.name| + 1 + |LeafText(l)|;
      assert |UserPath(u, k).text| == |u.name| + 1 + |LeafText(k)|;
    }
  }

  predicate IsSection(l: Leaf)
  {
    l == Profile || l == Quota || l == Ip || l == HostRegexp
  }

  lemma MustHaveSections(m: Entries, u: User, cfg: Config, l: Leaf)
    ensures var n := MustHave(m, u, cfg);
      && (IsSection(l) ==> UserPath(u, l) in n)
      && (UserPath(u, l) in m ==> UserPath(u, l) in n && n[UserPath(u, l)] == m[UserPath(u, l)])
      && (!IsSection(l) && UserPath(u, l) !in m ==> UserPath(u, l) !in n)
  {
    LeavesApart(u);
  }

  /** What one user is left with. */
  lemma SecureUserResult(m: Entries, u: User, cfg: Config, l: Leaf)
    ensures var n := SecureUser(m, u, cfg);
      var pass := PlainPassword(m, u, cfg);
      && (IsSection(l) ==> UserPath(u, l) in n)
      && (l != Password && UserPath(u, l) in m ==> UserPath(u, l) in n && n[UserPath(u, l)] == m[UserPath(u, l)])
      && (UserPath(u, Sha) in n <==> UserPath(u, Sha) in m || pass != "")
      && (UserPath(u, Sha) !in m && pass != "" ==> n[UserPath(u, Sha)] == Scalar(cfg.sha256Hex(pass)))
      && At(n, UserPath(u, Password)) ==
         (if UserPath(u, Sha) !in n then At(m, UserPath(u, Password))
          else if u == DEFAULT_USER then Some(REMOVED) else None)
  {
    LeavesApart(u);
    MustHaveSections(m, u, cfg, l);
    MustHaveSections(m, u, cfg, Sha);
    MustHaveSections(m, u, cfg, Password);
  }

  /** After normalisation every user and "default" has all its sections, with the supplied values kept;
      nobody has both a password and a hash, except that the default user's stock password is then
      marked as removed; and a hash is only missing where there is no password to hide. */
  lemma SecuredUsers(now: Entries, m: Entries, cfg: Config, u: User)
    requires AllNormal(m) && IsSecured(now, m, cfg) && IsUser(m, u)
    ensures forall l | IsSection(l) :: UserPath(u, l) in now
    ensures forall l | l != Password && UserPath(u, l) in m :: At(now, UserPath(u, l)) == At(m, UserPath(u, l))
    ensures UserPath(u, Sha) in now ==> At(now, UserPath(u, Password)) == if u == DEFAULT_USER then Some(REMOVED) else None
    ensures UserPath(u, Sha) !in now ==> PlainPassword(m, u, cfg) == ""
    ensures UserPath(u, Sha) !in m && UserPath(u, Sha) in now ==>
      now[UserPath(u, Sha)] == Scalar(cfg.sha256Hex(PlainPassword(m, u, cfg)))
  {
    UsersArePlain(m, u);
    forall l: Leaf
      ensures At(now, UserPath(u, l)) == At(SecureUser(m, u, cfg), UserPath(u, l))
    {
      UserPathOwner(u, l);
    }
    forall l: Leaf {
      SecureUserResult(m, u, cfg, l);
    }
  }

  // ---- the same, path by path ----

  /** Some path names the user, or it is the default user. */
  ghost predicate Named(m: Entries, name: string)
  {
    name == "default" || exists rest: string :: Path(name + "/" + rest) in m
  }

  lemma NamedIsUser(m: Entries, name: string)
    requires AllNormal(m) && '/' !in name && Named(m, name)
    ensures IsUser(m, User(name))
  {
    if rest: string :| Path(name + "/" + rest) in m {
      SplitAppend(name, rest, '/');
      SplitWithout(name, '/');
      var p := Path(name + "/" + rest);
      assert Split(p.text, '/') == [name] + Split(rest, '/');
      assert |Split(p.text, '/')| >= 2 && Owner(p) == User(name);
    }
  }

  /** And the other way round: a path without a slash names no user. */
  lemma UserIsNamed(m: Entries, u: User)
    requires IsUser(m, u)
    ensures Named(m, u.name)
  {
    if p :| p in m && |Split(p.text, '/')| >= 2 && Owner(p) == u {
      var parts := Split(p.text, '/');
      JoinSplit(p.text, '/');
      assert p.text == u.name + "/" + Join(parts[1..], "/");
      assert Path(u.name + "/" + Join(parts[1..], "/")) == p;
    }
  }

  lemma SecuredLeaf(now: Entries, m: Entries, cfg: Config, name: string, l: Leaf)
    requires AllNormal(m) && IsSecured(now, m, cfg) && '/' !in name && Named(m, name)
    ensures At(now, UserPath(User(name), l)) == At(SecureUser(m, User(name), cfg), UserPath(User(name), l))
  {
    NamedIsUser(m, name);
    UsersArePlain(m, User(name));
    UserPathOwner(User(name), l);
  }

  /** The paths of a user, as they are written in the settings. */
  lemma UserPaths(name: string)
    ensures UserPath(User(name), Profile).text == name + "/" + "profile"
    ensures UserPath(User(name), Quota).text == name + "/" + "quota"
    ensures UserPath(User(name), Ip).text == name + "/" + "networks/ip"
    ensures UserPath(User(name), HostRegexp).text == name + "/" + "networks/host_regexp"
    ensures UserPath(User(name), Password).text == name + "/" + "password"
    ensures UserPath(User(name), Sha).text == name + "/" + "password_sha256_hex"
  {
  }

  /** The operator's default for a section. */
  function DefaultOf(cfg: Config, l: Leaf): Option<Setting>
  {
    match l
    case Profile => Some(Scalar(cfg.profile))
    case Quota => Some(Scalar(cfg.quota))
    case Ip => Some(Vector(cfg.networksIP))
    case HostRegexp => Some(Scalar(cfg.hostRegexp))
    case Password => None
    case Sha => None
  }

  lemma EnsuredAt(m: Entries, u: User, cfg: Config, l: Leaf)
    ensures At(MustHave(m, u, cfg), UserPath(u, l)) == if UserPath(u, l) in m then At(m, UserPath(u, l)) else DefaultOf(cfg, l)
  {
    LeavesApart(u);
  }

  lemma EnsuredElsewhere(m: Entries, u: User, cfg: Config, p: Path)
    requires forall l: Leaf :: p != UserPath(u, l)
    ensures At(MustHave(m, u, cfg), p) == At(m, p)
  {
  }

  /** Each section a user was not given has the operator's default for it. */
  lemma SectionsGetDefaults(now: Entries, m: Entries, cfg: Config, name: string, l: Leaf)
    requires AllNormal(m) && IsSecured(now, m, cfg) && '/' !in name && Named(m, name)
    requires l != Password && l != Sha
    ensures At(now, UserPath(User(name), l)) == if UserPath(User(name), l) in m then At(m, UserPath(User(name), l)) else DefaultOf(cfg, l)
  {
    var u := User(name);
    SecuredLeaf(now, m, cfg, name, l);
    EnsuredAt(m, u, cfg, l);
    LeavesApart(u);
  }

  /** That is, written out. */
  lemma MissingSections(now: Entries, m: Entries, cfg: Config, name: string)
    requires AllNormal(m) && IsSecured(now, m, cfg) && '/' !in name && Named(m, name)
    ensures Path(name + "/" + "profile") in m || At(now, Path(name + "/" + "profile")) == Some(Scalar(cfg.profile))
    ensures Path(name + "/" + "quota") in m || At(now, Path(name + "/" + "quota")) == Some(Scalar(cfg.quota))
    ensures Path(name + "/" + "networks/ip") in m || At(now, Path(name + "/" + "networks/ip")) == Some(Vector(cfg.networksIP))
    ensures Path(name + "/" + "networks/host_regexp") in m || At(now, Path(name + "/" + "networks/host_regexp")) == Some(Scalar(cfg.hostRegexp))
  {
    UserPaths(name);
    SectionsGetDefaults(now, m, cfg, name, Profile);
    SectionsGetDefaults(now, m, cfg, name, Quota);
    SectionsGetDefaults(now, m, cfg, name, Ip);
    SectionsGetDefaults(now, m, cfg, name, HostRegexp);
  }

  /** The password in force: the supplied one, or, for users other than "default", the operator's. */
  function PasswordInForce(given: Option<Setting>, name: string, cfg: Config): string
  {
    match given
    case Some(Scalar(v)) => v
    case Some(Vector(vs)) => Join(vs, ",")
    case None => if name == "default" then "" else cfg.password
  }

  lemma PasswordOfUser(m: Entries, name: string, cfg: Config)
    ensures PlainPassword(m, User(name), cfg) == PasswordInForce(At(m, UserPath(User(name), Password)), name, cfg)
  {
  }

  /** What becomes of the password of a user: a supplied hash is kept; without one, the password in force is
      hashed; and where there is a hash the plain password goes, or is marked as removed for "default". An
      empty password leaves everything as it was. */
  lemma PasswordIsHashed(now: Entries, m: Entries, cfg: Config, name: string)
    requires AllNormal(m) && IsSecured(now, m, cfg) && '/' !in name && Named(m, name)
    ensures var plain, hash := UserPath(User(name), Password), UserPath(User(name), Sha);
      var v := PasswordInForce(At(m, plain), name, cfg);
      && At(now, hash) == (if hash in m then At(m, hash) else if v == "" then None else Some(Scalar(cfg.sha256Hex(v))))
      && At(now, plain) == (if hash !in m && v == "" then At(m, plain)
                            else if name == "default" then Some(Scalar("_removed_"))
                            else None)
  {
    var u := User(name);
    SecuredLeaf(now, m, cfg, name, Sha);
    SecuredLeaf(now, m, cfg, name, Password);
    SecureUserResult(m, u, cfg, Sha);
    PasswordOfUser(m, name, cfg);
  }

  lemma SecuredElsewhere(m: Entries, u: User, cfg: Config, p: Path)
    requires forall l: Leaf :: p != UserPath(u, l)
    ensures At(SecureUser(m, u, cfg), p) == At(m, p)
  {
    EnsuredElsewhere(m, u, cfg, p);
    assert p != UserPath(u, Password) && p != UserPath(u, Sha);
  }

  /** Nothing else changes: every other setting is as it was. */
  lemma OtherSettingsStay(now: Entries, m: Entries, cfg: Config, p: Path)
    requires AllNormal(m) && IsSecured(now, m, cfg)
    requires forall u: User, l: Leaf | Named(m, u.name) :: p != UserPath(u, l)
    ensures At(now, p) == At(m, p)
  {
    assert At(now, p) == SecuredAt(m, p, cfg);
    if IsUser(m, Owner(p)) {
      UserIsNamed(m, Owner(p));
      SecuredElsewhere(m, Owner(p), cfg, p);
    }
  }

  /** The outcome does not depend on the order in which the users are visited. */
  lemma SecuredUnique(a: Entries, b: Entries, m: Entries, cfg: Config)
    requires IsSecured(a, m, cfg) && IsSecured(b, m, cfg)
    ensures a == b
  {
    forall p
      ensures At(a, p) == At(b, p)
    {
    }
    SameEverywhere(a, b);
  }

  lemma SameEverywhere(a: Entries, b: Entries)
    requires forall p :: At(a, p) == At(b, p)
    ensures a == b
  {
    forall p
      ensures p in a <==> p in b
      ensures p in a ==> a[p] == b[p]
    {
      assert At(a, p) == At(b, p);
    }
  }

  // ---- a second run ----

  lemma SecureUserTwice(m: Entries, u: User, cfg: Config)
    ensures SecureUser(SecureUser(m, u, cfg), u, cfg) == SecureUser(m, u, cfg)
  {
    var n := SecureUser(m, u, cfg);
    forall l: Leaf {
      SecureUserResult(m, u, cfg, l);
    }
    assert MustHave(n, u, cfg) == n;
    HidePasswordTwice(MustHave(m, u, cfg), u, cfg);
  }

  lemma HidePasswordTwice(m: Entries, u: User, cfg: Config)
    ensures HidePassword(HidePassword(m, u, cfg), u, cfg) == HidePassword(m, u, cfg)
  {
    LeavesApart(u);
  }

  lemma SecuredAgain(now: Entries, m: Entries, cfg: Config, p: Path)
    requires AllNormal(m) && IsSecured(now, m, cfg) && IsUser(m, Owner(p))
    ensures At(SecureUser(now, Owner(p), cfg), p) == At(now, p)
  {
    var u := Owner(p);
    UsersArePlain(m, u);
    SecureAgrees(now, SecureUser(m, u, cfg), u, cfg, p);
    SecureUserTwice(m, u, cfg);
  }

  lemma NormalUserPath(u: User, l: Leaf)
    requires PlainName(u)
    ensures !Raw(UserPath(u, l))
  {
    var s, n := UserPath(u, l).text, |u.name|;
    assert s[..n] == u.name && s[n] == '/' && s[n + 1..] == LeafText(l);
    forall i | 0 <= i < |s| - 1
      ensures !(s[i] == '/' && s[i + 1] == '/')
    {
      if i < n {
        assert s[i] in u.name;
      } else if i > n {
        LeafIsNormal(l);
        assert s[i] == LeafText(l)[i - n - 1] && s[i + 1] == LeafText(l)[i - n];
      } else {
        LeafIsNormal(l);
        assert s[i + 1] == LeafText(l)[0];
      }
    }
    LeafIsNormal(l);
    assert s[|s| - 1] == LeafText(l)[|LeafText(l)| - 1];
    assert s[0] == u.name[0] && u.name[0] in u.name;
    LengthTestIsExact(s);
  }

  lemma LeafIsNormal(l: Leaf)
    ensures IsNormalText(LeafText(l)) && LeafText(l) != ""
  {
  }

  lemma NewPathsAreLeaves(m: Entries, u: User, cfg: Config, p: Path)
    requires p in SecureUser(m, u, cfg)
    ensures p in m || exists l: Leaf :: p == UserPath(u, l)
  {
    if p !in m {
      assert p in {UserPath(u, Profile), UserPath(u, Quota), UserPath(u, Ip), UserPath(u, HostRegexp), UserPath(u, Password), UserPath(u, Sha)};
    }
  }

  lemma SecuredPath(now: Entries, m: Entries, cfg: Config, p: Path)
    requires AllNormal(m) && IsSecured(now, m, cfg) && p in now
    ensures !Raw(p) && (IsUser(m, Owner(p)) || p in m)
  {
    var u := Owner(p);
    assert At(now, p) == SecuredAt(m, p, cfg);
    if IsUser(m, u) {
      UsersArePlain(m, u);
      NewPathsAreLeaves(m, u, cfg, p);
      if p !in m {
        var l: Leaf :| p == UserPath(u, l);
        NormalUserPath(u, l);
      }
    }
  }

  /** Normalising the users a second time changes nothing. */
  lemma SecondRunChangesNoUser(now: Entries, m: Entries, normal: Entries, again: Entries, cfg: Config)
    requires AllNormal(m) && IsSecured(now, m, cfg)
    requires NormalizationOf(normal, now) && IsSecured(again, normal, cfg)
    ensures again == now
  {
    forall p | p in now {
      SecuredPath(now, m, cfg, p);
    }
    NormalStays(normal, now);
    forall p
      ensures At(again, p) == At(now, p)
    {
      SecondRunAt(now, m, again, cfg, p);
    }
    SameEverywhere(again, now);
  }

  lemma SecondRunAt(now: Entries, m: Entries, again: Entries, cfg: Config, p: Path)
    requires AllNormal(m) && IsSecured(now, m, cfg) && IsSecured(again, now, cfg)
    ensures At(again, p) == At(now, p)
  {
    assert At(again, p) == SecuredAt(now, p, cfg);
    if IsUser(now, Owner(p)) {
      UsersDoNotGrow(now, m, cfg, Owner(p));
      SecuredAgain(now, m, cfg, p);
    }
  }

  lemma UsersDoNotGrow(now: Entries, m: Entries, cfg: Config, u: User)
    requires AllNormal(m) && IsSecured(now, m, cfg) && IsUser(now, u)
    ensures IsUser(m, u)
  {
    if u != DEFAULT_USER {
      var p :| p in now && |Split(p.text, '/')| >= 2 && Owner(p) == u;
      SecuredPath(now, m, cfg, p);
    }
  }
}
