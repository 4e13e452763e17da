/** Organizations, their members and invitations: who owns an organization, and how often
    and by whom an invitation can be accepted. */
module Organizations {
  import opened Wrappers
  import opened Text

  type OrgId = nat
  type User = nat
  type Hash = nat
  type MemberId = nat

  datatype Role = Owner | Admin | Member | Viewer

  /** The roles that requests may name. */
  type Grantable = r: Role | r != Owner witness Viewer

  datatype Organization = Organization(name: string, slug: string, createdBy: User)

  datatype Membership = Membership(organization: OrgId, user: User, role: Role)

  datatype Status = Pending | Accepted | Expired

  datatype Invitation = Invitation(organization: OrgId, email: string, role: Grantable, status: Status, expiresAt: int)

  /** What an audit entry records, with its entity and metadata. */
  datatype Entry =
    | Created
    | Invited(invitation: Hash, email: string, granted: Grantable)
    | Joined(member: MemberId, role: Role)
    | RoleChanged(member: MemberId, from: Role, to: Role)
    | Removed(member: MemberId, user: User, role: Role)

  datatype Audit = Audit(organization: OrgId, actor: User, entry: Entry)

  /** `emails` are the registered accounts, lower-cased; invitations are keyed by token fingerprint,
      and `mails` are the invitations whose mail job was published. */
  datatype Store = Store(
    emails: map<User, string>,
    organizations: map<OrgId, Organization>,
    memberships: map<MemberId, Membership>,
    invitations: map<Hash, Invitation>,
    audits: seq<Audit>,
    mails: seq<Hash>)

  datatype Error =
    | SlugExists | AlreadyMember | AlreadyPending
    | InvitationNotFound | NotActive | InvitationExpired | EmailMismatch
    | MembershipNotFound | OwnerProtected | BrokerUnavailable

  const INVITATION_LIFETIME := 7 * 86_400

  predicate IsMember(s: Store, org: OrgId, user: User) {
    exists m :: m in s.memberships && s.memberships[m].organization == org && s.memberships[m].user == user
  }

  predicate IsPending(s: Store, org: OrgId, email: string, h: Hash) {
    && h in s.invitations && s.invitations[h].status.Pending?
    && s.invitations[h].organization == org && s.invitations[h].email == email
  }

  predicate EmailBelongsToMember(s: Store, org: OrgId, email: string) {
    exists u :: u in s.emails && s.emails[u] == email && IsMember(s, org, u)
  }

  /** A pending invitation that still runs. */
  predicate Outstanding(s: Store, org: OrgId, email: string, now: int) {
    exists h :: h in s.invitations && IsPending(s, org, email, h) && s.invitations[h].expiresAt > now
  }

  /** Lapsed pending invitations of the address make room for a new one. */
  function Lapsed(s: Store, org: OrgId, email: string): map<Hash, Invitation> {
    map h | h in s.invitations ::
      if IsPending(s, org, email, h) then s.invitations[h].(status := Expired) else s.invitations[h]
  }

  function Logged(s: Store, org: OrgId, actor: User, entry: Entry): Store {
    s.(audits := s.audits + [Audit(org, actor, entry)])
  }

  predicate SlugTaken(s: Store, slug: string) {
    exists o :: o in s.organizations && s.organizations[o].slug == slug
  }

  function Create(
    s: Store, user: User, name: string, slug: string, org: OrgId, member: MemberId): Result<Store, Error>
  {
    if SlugTaken(s, slug) then Failure(SlugExists)
    else
      var created := s.(organizations := s.organizations[org := Organization(Strip(name), slug, user)],
                        memberships := s.memberships[member := Membership(org, user, Owner)]);
      Success(Logged(created, org, user, Created))
  }

  /** A broker that refuses the mail job aborts the request. */
  function Invite(
    s: Store, org: OrgId, actor: User, email: string, role: Grantable, hash: Hash, now: int, refused: bool)
    : Result<Store, Error>
  {
    if EmailBelongsToMember(s, org, email) then Failure(AlreadyMember)
    else if Outstanding(s, org, email, now) then Failure(AlreadyPending)
    else if refused then Failure(BrokerUnavailable)
    else
      var invitation := Invitation(org, email, role, Pending, now + INVITATION_LIFETIME);
      var invited := s.(invitations := Lapsed(s, org, email)[hash := invitation], mails := s.mails + [hash]);
      Success(Logged(invited, org, actor, Invited(hash, email, role)))
  }

  /** The membership row of a member; there is one at most. */
  ghost function MemberRow(s: Store, org: OrgId, user: User): (m: MemberId)
    requires IsMember(s, org, user)
    ensures m in s.memberships && s.memberships[m].organization == org && s.memberships[m].user == user
  {
    var m :| m in s.memberships && s.memberships[m].organization == org && s.memberships[m].user == user;
    m
  }

  /** An error rolls the request back, so a lapsed invitation is not marked here. */
  ghost function Accept(s: Store, user: User, hash: Hash, member: MemberId, now: int): Result<Store, Error>
    requires user in s.emails
  {
    if hash !in s.invitations then Failure(InvitationNotFound)
    else
      var invitation := s.invitations[hash];
      if !invitation.status.Pending? then Failure(NotActive)
      else if invitation.expiresAt <= now then Failure(InvitationExpired)
      else if invitation.email != s.emails[user] then Failure(EmailMismatch)
      else Success(Admitted(s, user, hash, member))
  }

  /** The invitation is accepted; a new row unless the person is a member already. */
  ghost function Admitted(s: Store, user: User, hash: Hash, member: MemberId): Store
    requires hash in s.invitations
  {
    var invitation := s.invitations[hash];
    var org := invitation.organization;
    var row := if IsMember(s, org, user) then MemberRow(s, org, user) else member;
    var rows := if IsMember(s, org, user) then s.memberships
                else s.memberships[member := Membership(org, user, invitation.role)];
    var accepted := s.(memberships := rows,
                       invitations := s.invitations[hash := invitation.(status := Accepted)]);
    Logged(accepted, org, user, Joined(row, rows[row].role))
  }

  function ChangeRole(s: Store, org: OrgId, actor: User, member: MemberId, role: Grantable): Result<Store, Error> {
    if member !in s.memberships || s.memberships[member].organization != org then Failure(MembershipNotFound)
    else if s.memberships[member].role.Owner? then Failure(OwnerProtected)
    else
      var row := s.memberships[member];
      Success(Logged(s.(memberships := s.memberships[member := row.(role := role)]),
                     org, actor, RoleChanged(member, row.role, role)))
  }

  function Remove(s: Store, org: OrgId, actor: User, member: MemberId): Result<Store, Error> {
    if member !in s.memberships || s.memberships[member].organization != org then Failure(MembershipNotFound)
    else if s.memberships[member].role.Owner? then Failure(OwnerProtected)
    else
      var row := s.memberships[member];
      Success(Logged(s, org, actor, Removed(member, row.user, row.role)).(memberships := s.memberships - {member}))
  }

  /** The cleanup job's UPDATE. */
  function Swept(s: Store, now: int): Store {
    s.(invitations := map h | h in s.invitations ::
         if s.invitations[h].status.Pending? && s.invitations[h].expiresAt < now
         then s.invitations[h].(status := Expired) else s.invitations[h])
  }

  // ------------------------------------------------- the code

  class Session {
    var s: Store

    constructor (s: Store)
      ensures this.s == s
    {
      this.s := s;
    }

    method Record(org: OrgId, actor: User, entry: Entry)
      modifies this
      ensures s == Logged(old(s), org, actor, entry)
    {
      s := s.(audits := s.audits + [Audit(org, actor, entry)]);
    }

    /** The organization row is flushed before the membership that refers to it. */
    method CreateOrganization(user: User, name: string, slug: string, org: OrgId, member: MemberId)
      returns (error: Option<Error>)
      modifies this
      ensures match Create(old(s), user, name, slug, org, member)
              case Success(t) => error.None? && s == t
              case Failure(e) => error == Some(e) && s == old(s)
    {
      if SlugTaken(s, slug) {
        return Some(SlugExists);
      }
      s := s.(organizations := s.organizations[org := Organization(Strip(name), slug, user)]);
      s := s.(memberships := s.memberships[member := Membership(org, user, Owner)]);
      Record(org, user, Created);
      return None;
    }

    method InviteMember(
        org: OrgId, actor: User, email: string, role: Grantable, hash: Hash, now: int, refused: bool)
      returns (error: Option<Error>)
      modifies this
      ensures match Invite(old(s), org, actor, email, role, hash, now, refused)
              case Success(t) => error.None? && s == t
              case Failure(e) => error == Some(e) && s == old(s)
    {
      if EmailBelongsToMember(s, org, email) {
        return Some(AlreadyMember);
      }
      if Outstanding(s, org, email, now) {
        return Some(AlreadyPending);
      }
      var saved := s;
      s := s.(invitations := Lapsed(s, org, email));
      var invitation := Invitation(org, email, role, Pending, now + INVITATION_LIFETIME);
      s := s.(invitations := s.invitations[hash := invitation]);
      Record(org, actor, Invited(hash, email, role));
      if refused {
        s := saved;
        return Some(BrokerUnavailable);
      }
      s := s.(mails := s.mails + [hash]);
      return None;
    }

    /** The unique key on organization and user makes the membership that is found the only one. */
    method AcceptInvitation(user: User, hash: Hash, member: MemberId, now: int) returns (error: Option<Error>)
      requires user in s.emails && MembersOk(s)
      modifies this
      ensures match Accept(old(s), user, hash, member, now)
              case Success(t) => error.None? && s == t
              case Failure(e) => error == Some(e) && s == old(s)
    {
      if hash !in s.invitations {
        return Some(InvitationNotFound);
      }
      var invitation := s.invitations[hash];
      if !invitation.status.Pending? {
        return Some(NotActive);
      }
      if invitation.expiresAt <= now {
        return Some(InvitationExpired);
      }
      if invitation.email != s.emails[user] {
        return Some(EmailMismatch);
      }
      var org := invitation.organization;
      var row := member;
      if IsMember(s, org, user) {
        row :| row in s.memberships && s.memberships[row].organization == org && s.memberships[row].user == user;
        assert row == MemberRow(s, org, user);
      } else {
        s := s.(memberships := s.memberships[member := Membership(org, user, invitation.role)]);
      }
      s := s.(invitations := s.invitations[hash := invitation.(status := Accepted)]);
      Record(org, user, Joined(row, s.memberships[row].role));
      return None;
    }

    method UpdateMembershipRole(org: OrgId, actor: User, member: MemberId, role: Grantable)
      returns (error: Option<Error>)
      modifies this
      ensures match ChangeRole(old(s), org, actor, member, role)
              case Success(t) => error.None? && s == t
              case Failure(e) => error == Some(e) && s == old(s)
    {
      if member !in s.memberships || s.memberships[member].organization != org {
        return Some(MembershipNotFound);
      }
      var oldRole := s.memberships[member].role;
      if oldRole == Owner {
        return Some(OwnerProtected);
      }
      s := s.(memberships := s.memberships[member := s.memberships[member].(role := role)]);
      Record(org, actor, RoleChanged(member, oldRole, role));
      return None;
    }

    method RemoveMembership(org: OrgId, actor: User, member: MemberId) returns (error: Option<Error>)
      modifies this
      ensures match Remove(old(s), org, actor, member)
              case Success(t) => error.None? && s == t
              case Failure(e) => error == Some(e) && s == old(s)
    {
      if member !in s.memberships || s.memberships[member].organization != org {
        return Some(MembershipNotFound);
      }
      var membership := s.memberships[member];
      if membership.role == Owner {
        return Some(OwnerProtected);
      }
      Record(org, actor, Removed(member, membership.user, membership.role));
      s := s.(memberships := s.memberships - {member});
      return None;
    }
  }

  // ------------------------------------------------- runs

  datatype Event =
    | Registers(user: User, email: string)
    | Creates(user: User, name: string, slug: string, org: OrgId, member: MemberId)
    | Invites(org: OrgId, actor: User, email: string, role: Grantable, hash: Hash, refused: bool)
    | Accepts(user: User, hash: Hash, member: MemberId)
    | ChangesRole(org: OrgId, actor: User, member: MemberId, role: Grantable)
    | Removes(org: OrgId, actor: User, member: MemberId)
    | Sweeps
    | Waits(until: int)

  /** `acceptances` records who accepted which invitation. */
  datatype System = System(s: Store, clock: int, acceptances: seq<(Hash, User)>)

  function After(x: System, r: Result<Store, Error>): System {
    if r.Success? then x.(s := r.value) else x
  }

  /** The system after an event; None when it cannot happen, in particular when a drawn id is not new. */
  ghost function Next(x: System, e: Event): Option<System> {
    match e
    case Registers(user, email) =>
      if user in x.s.emails || (exists u :: u in x.s.emails && x.s.emails[u] == email) then None
      else Some(x.(s := x.s.(emails := x.s.emails[user := email])))
    case Creates(user, name, slug, org, member) =>
      if user !in x.s.emails || org in x.s.organizations || member in x.s.memberships then None
      else Some(After(x, Create(x.s, user, name, slug, org, member)))
    case Invites(org, actor, email, role, hash, refused) =>
      if org !in x.s.organizations || hash in x.s.invitations then None
      else Some(After(x, Invite(x.s, org, actor, email, role, hash, x.clock, refused)))
    case Accepts(user, hash, member) =>
      if user !in x.s.emails || member in x.s.memberships then None
      else
        var r := Accept(x.s, user, hash, member, x.clock);
        var y := After(x, r);
        Some(if r.Success? then y.(acceptances := x.acceptances + [(hash, user)]) else y)
    case ChangesRole(org, actor, member, role) => Some(After(x, ChangeRole(x.s, org, actor, member, role)))
    case Removes(org, actor, member) => Some(After(x, Remove(x.s, org, actor, member)))
    case Sweeps => Some(x.(s := Swept(x.s, x.clock)))
    case Waits(until) => if until >= x.clock then Some(x.(clock := until)) else None
  }

  ghost predicate Reaches(x: System, es: seq<Event>, y: System)
    decreases |es|
  {
    if es == [] then x == y
    else Next(x, es[0]).Some? && Reaches(Next(x, es[0]).value, es[1..], y)
  }

  /** Before any organization exists. */
  ghost predicate Initial(x: System) {
    x.s.organizations == map[] && x.s.memberships == map[] && x.s.invitations == map[] &&
    x.s.audits == [] && x.acceptances == []
  }

  // ------------------------------------------------- what every state keeps

  /** One membership per person, in an existing organization. */
  ghost predicate MembersOk(s: Store) {
    && (forall m :: m in s.memberships ==> s.memberships[m].organization in s.organizations)
    && (forall m, n :: m in s.memberships && n in s.memberships && m != n &&
                       s.memberships[m].organization == s.memberships[n].organization ==>
                         s.memberships[m].user != s.memberships[n].user)
  }

  ghost predicate OwnedBy(s: Store, org: OrgId, m: MemberId) {
    m in s.memberships && s.memberships[m].organization == org && s.memberships[m].role.Owner?
  }

  /** The creator is the owner, and only the creator; a slug names one organization. */
  ghost predicate OwnersOk(s: Store) {
    && (forall o :: o in s.organizations ==> exists m :: OwnedBy(s, o, m))
    && (forall o, m :: OwnedBy(s, o, m) ==>
          o in s.organizations && s.memberships[m].user == s.organizations[o].createdBy)
    && (forall o, p :: o in s.organizations && p in s.organizations && o != p ==>
                         s.organizations[o].slug != s.organizations[p].slug)
  }

  /** Invitations are to existing organizations, at most one pending per organization and address. */
  ghost predicate InvitationsOk(s: Store) {
    && (forall h :: h in s.invitations ==> s.invitations[h].organization in s.organizations)
    && (forall org, email, h, k :: IsPending(s, org, email, h) && IsPending(s, org, email, k) ==> h == k)
  }

  ghost predicate AcceptancesOk(x: System) {
    && (forall i :: 0 <= i < |x.acceptances| ==>
          var (h, u) := x.acceptances[i];
          && h in x.s.invitations && x.s.invitations[h].status.Accepted?
          && u in x.s.emails && x.s.emails[u] == x.s.invitations[h].email)
    && (forall i, j :: 0 <= i < j < |x.acceptances| ==> x.acceptances[i].0 != x.acceptances[j].0)
  }

  /** The person accepted an invitation to the organization. */
  ghost predicate WasInvited(x: System, org: OrgId, user: User) {
    exists i :: 0 <= i < |x.acceptances| && x.acceptances[i].1 == user &&
                x.acceptances[i].0 in x.s.invitations && x.s.invitations[x.acceptances[i].0].organization == org
  }

  /** Nobody is a member without having created the organization or accepted an invitation to it. */
  ghost predicate EntriesOk(x: System) {
    forall m :: m in x.s.memberships && !x.s.memberships[m].role.Owner? ==>
      WasInvited(x, x.s.memberships[m].organization, x.s.memberships[m].user)
  }

  /** The memberships told so far, other than owners', after one more audit entry. */
  function Told(before: map<MemberId, Membership>, a: Audit): map<MemberId, Membership> {
    match a.entry
    case Joined(m, role) => if role.Owner? then before else before[m := Membership(a.organization, a.actor, role)]
    case RoleChanged(m, _, to) => if m in before then before[m := before[m].(role := to)] else before
    case Removed(m, _, _) => before - {m}
    case _ => before
  }

  function Ledger(audits: seq<Audit>): map<MemberId, Membership> {
    if audits == [] then map[] else Told(Ledger(audits[..|audits| - 1]), audits[|audits| - 1])
  }

  function NonOwners(memberships: map<MemberId, Membership>): map<MemberId, Membership> {
    map m | m in memberships && !memberships[m].role.Owner? :: memberships[m]
  }

  ghost predicate LedgerOk(s: Store) {
    Ledger(s.audits) == NonOwners(s.memberships)
  }

  ghost predicate RowsOk(x: System) {
    MembersOk(x.s) && OwnersOk(x.s) && InvitationsOk(x.s) && AcceptancesOk(x) && EntriesOk(x)
  }

  ghost predicate Inv(x: System) {
    RowsOk(x) && LedgerOk(x.s)
  }

  /** Two stores with the same owner rows in the same organizations. */
  ghost predicate SameOwners(s: Store, t: Store) {
    && s.organizations == t.organizations
    && (forall m :: m in s.memberships && s.memberships[m].role.Owner? ==>
          m in t.memberships && t.memberships[m] == s.memberships[m])
    && (forall m :: m in t.memberships && t.memberships[m].role.Owner? ==>
          m in s.memberships && t.memberships[m] == s.memberships[m])
  }

  lemma SameOwnersKeep(s: Store, t: Store)
    requires OwnersOk(s) && SameOwners(s, t)
    ensures OwnersOk(t)
  {
    forall o | o in t.organizations
      ensures exists m :: OwnedBy(t, o, m)
    {
      var m :| OwnedBy(s, o, m);
      assert OwnedBy(t, o, m);
    }
    assert forall o, m :: OwnedBy(t, o, m) ==> OwnedBy(s, o, m);
  }

  /** No acceptance is forgotten and no invitation changes its organization. */
  ghost predicate Extends(x: System, y: System) {
    && x.acceptances <= y.acceptances
    && (forall h :: h in x.s.invitations ==>
          h in y.s.invitations && y.s.invitations[h].organization == x.s.invitations[h].organization)
  }

  lemma WasInvitedKeeps(x: System, y: System, org: OrgId, user: User)
    requires Extends(x, y) && WasInvited(x, org, user)
    ensures WasInvited(y, org, user)
  {
  }

  /** Rows of `t` are rows of `s` up to their role, and no other row changes between owner and not. */
  ghost predicate SubRows(s: Store, t: Store) {
    forall m :: m in t.memberships ==>
      && m in s.memberships && s.memberships[m].organization == t.memberships[m].organization
      && s.memberships[m].user == t.memberships[m].user
      && (s.memberships[m].role.Owner? ==> t.memberships[m].role.Owner?)
  }

  lemma MembersKeep(s: Store, t: Store)
    requires MembersOk(s) && SubRows(s, t)
    requires s.organizations.Keys <= t.organizations.Keys
    ensures MembersOk(t)
  {
  }

  lemma EntriesKeep(x: System, y: System)
    requires EntriesOk(x) && Extends(x, y) && SubRows(x.s, y.s)
    ensures EntriesOk(y)
  {
  }

  /** Invitations of `t` are those of `s`, except that some pending ones may have ended. */
  ghost predicate SubPending(s: Store, t: Store) {
    && s.organizations.Keys <= t.organizations.Keys && t.invitations.Keys == s.invitations.Keys
    && (forall h :: h in s.invitations ==>
          && t.invitations[h].organization == s.invitations[h].organization
          && t.invitations[h].email == s.invitations[h].email
          && (!s.invitations[h].status.Pending? ==> t.invitations[h] == s.invitations[h]))
  }

  lemma InvitationsKeep(s: Store, t: Store)
    requires InvitationsOk(s) && SubPending(s, t)
    ensures InvitationsOk(t)
  {
    assert forall org, email, h :: IsPending(t, org, email, h) ==> IsPending(s, org, email, h);
  }

  lemma AcceptancesKeep(x: System, y: System)
    requires AcceptancesOk(x) && x.acceptances == y.acceptances && SubPending(x.s, y.s)
    requires forall u :: u in x.s.emails ==> u in y.s.emails && y.s.emails[u] == x.s.emails[u]
    ensures AcceptancesOk(y)
  {
  }

  /** A new organization with one owner row, beside the others. */
  lemma NewOwnerKeeps(s: Store, t: Store, org: OrgId, member: MemberId)
    requires OwnersOk(s) && org !in s.organizations && member !in s.memberships
    requires org in t.organizations && t.organizations == s.organizations[org := t.organizations[org]]
    requires t.memberships == s.memberships[member := Membership(org, t.organizations[org].createdBy, Owner)]
    requires !SlugTaken(s, t.organizations[org].slug)
    ensures OwnersOk(t)
  {
    assert OwnedBy(t, org, member);
    forall o | o in t.organizations
      ensures exists m :: OwnedBy(t, o, m)
    {
      if o != org {
        var m :| OwnedBy(s, o, m);
        assert OwnedBy(t, o, m);
      }
    }
    assert forall o, m :: OwnedBy(t, o, m) ==> m == member || OwnedBy(s, o, m);
  }

  lemma CreateKeepsOwners(s: Store, e: Event)
    requires OwnersOk(s) && MembersOk(s) && e.Creates? && e.org !in s.organizations && e.member !in s.memberships
    requires Create(s, e.user, e.name, e.slug, e.org, e.member).Success?
    ensures OwnersOk(Create(s, e.user, e.name, e.slug, e.org, e.member).value)
    ensures MembersOk(Create(s, e.user, e.name, e.slug, e.org, e.member).value)
  {
    hide OwnersOk, SlugTaken, Strip;
    NewOwnerKeeps(s, Create(s, e.user, e.name, e.slug, e.org, e.member).value, e.org, e.member);
  }

  lemma CreateKeepsEntries(x: System, e: Event)
    requires EntriesOk(x) && e.Creates? && Next(x, e).Some?
    ensures EntriesOk(Next(x, e).value)
  {
  }

  lemma CreateKeeps(x: System, e: Event)
    requires RowsOk(x) && e.Creates? && Next(x, e).Some?
    ensures RowsOk(Next(x, e).value)
  {
    hide WasInvited, EntriesOk, MembersOk, OwnersOk, InvitationsOk, AcceptancesOk;
    var y := Next(x, e).value;
    if Create(x.s, e.user, e.name, e.slug, e.org, e.member).Success? {
      CreateKeepsOwners(x.s, e);
    }
    CreateKeepsEntries(x, e);
    InvitationsKeep(x.s, y.s);
    AcceptancesKeep(x, y);
  }

  lemma InviteKeepsInvitations(x: System, e: Event)
    requires InvitationsOk(x.s) && AcceptancesOk(x) && e.Invites? && Next(x, e).Some?
    ensures InvitationsOk(Next(x, e).value.s) && AcceptancesOk(Next(x, e).value)
  {
    var y := Next(x, e).value;
    forall org, email, h, k | IsPending(y.s, org, email, h) && IsPending(y.s, org, email, k)
      ensures h == k
    {
      assert h == e.hash || IsPending(x.s, org, email, h);
      assert k == e.hash || IsPending(x.s, org, email, k);
    }
  }

  lemma InviteKeeps(x: System, e: Event)
    requires RowsOk(x) && e.Invites? && Next(x, e).Some?
    ensures RowsOk(Next(x, e).value)
  {
    hide WasInvited, EntriesOk, MembersOk, OwnersOk, InvitationsOk, AcceptancesOk;
    var y := Next(x, e).value;
    MembersKeep(x.s, y.s);
    SameOwnersKeep(x.s, y.s);
    EntriesKeep(x, y);
    InviteKeepsInvitations(x, e);
  }

  lemma AcceptKeepsMembers(x: System, e: Event)
    requires MembersOk(x.s) && InvitationsOk(x.s) && e.Accepts? && Next(x, e).Some?
    ensures MembersOk(Next(x, e).value.s)
  {
    hide IsPending;
  }

  lemma AcceptKeepsInvitations(x: System, e: Event)
    requires InvitationsOk(x.s) && AcceptancesOk(x) && e.Accepts? && Next(x, e).Some?
    ensures InvitationsOk(Next(x, e).value.s) && AcceptancesOk(Next(x, e).value)
  {
    hide InvitationsOk;
    InvitationsKeep(x.s, Next(x, e).value.s);
  }

  lemma AcceptKeepsEntries(x: System, e: Event)
    requires EntriesOk(x) && e.Accepts? && Next(x, e).Some?
    ensures EntriesOk(Next(x, e).value)
  {
    hide WasInvited;
    var y := Next(x, e).value;
    assert Extends(x, y);
    forall m | m in y.s.memberships && !y.s.memberships[m].role.Owner?
      ensures WasInvited(y, y.s.memberships[m].organization, y.s.memberships[m].user)
    {
      if m in x.s.memberships {
        WasInvitedKeeps(x, y, y.s.memberships[m].organization, y.s.memberships[m].user);
      } else {
        LastWasInvited(y);
      }
    }
  }

  lemma LastWasInvited(y: System)
    requires |y.acceptances| > 0 && y.acceptances[|y.acceptances| - 1].0 in y.s.invitations
    ensures var (h, u) := y.acceptances[|y.acceptances| - 1];
            WasInvited(y, y.s.invitations[h].organization, u)
  {
  }

  lemma AcceptKeeps(x: System, e: Event)
    requires RowsOk(x) && e.Accepts? && Next(x, e).Some?
    ensures RowsOk(Next(x, e).value)
  {
    hide EntriesOk, MembersOk, OwnersOk, InvitationsOk, AcceptancesOk;
    AcceptKeepsMembers(x, e);
    SameOwnersKeep(x.s, Next(x, e).value.s);
    AcceptKeepsInvitations(x, e);
    AcceptKeepsEntries(x, e);
  }

  /** Role changes, removals, the cleanup job, new accounts and the clock leave every row where it
      was, or take it away. */
  lemma OthersKeep(x: System, e: Event)
    requires RowsOk(x) && !e.Creates? && !e.Invites? && !e.Accepts? && Next(x, e).Some?
    ensures RowsOk(Next(x, e).value)
  {
    hide WasInvited, EntriesOk, MembersOk, OwnersOk, InvitationsOk, AcceptancesOk;
    var y := Next(x, e).value;
    MembersKeep(x.s, y.s);
    SameOwnersKeep(x.s, y.s);
    InvitationsKeep(x.s, y.s);
    AcceptancesKeep(x, y);
    EntriesKeep(x, y);
  }

  lemma LedgerAppend(audits: seq<Audit>, a: Audit)
    ensures Ledger(audits + [a]) == Told(Ledger(audits), a)
  {
    assert (audits + [a])[..|audits|] == audits;
  }

  /** Every change of a membership is logged as it happened. */
  lemma LedgerStep(x: System, e: Event)
    requires LedgerOk(x.s) && Next(x, e).Some?
    ensures LedgerOk(Next(x, e).value.s)
  {
    hide Ledger, IsPending, Outstanding, EmailBelongsToMember, Lapsed, Strip;
    var y := Next(x, e).value;
    if y.s.audits != x.s.audits {
      var last := y.s.audits[|y.s.audits| - 1];
      assert y.s.audits == x.s.audits + [last];
      LedgerAppend(x.s.audits, last);
    }
  }

  lemma StepKeeps(x: System, e: Event)
    requires Inv(x) && Next(x, e).Some?
    ensures Inv(Next(x, e).value)
  {
    hide Next, Create, Invite, Accept, ChangeRole, Remove, Swept;
    hide MembersOk, OwnersOk, InvitationsOk, AcceptancesOk, EntriesOk, LedgerOk;
    LedgerStep(x, e);
    match e
    case Creates(_, _, _, _, _) => CreateKeeps(x, e);
    case Invites(_, _, _, _, _, _) => InviteKeeps(x, e);
    case Accepts(_, _, _) => AcceptKeeps(x, e);
    case _ => OthersKeep(x, e);
  }

  lemma {:induction false} InvAlways(x: System, es: seq<Event>, y: System)
    requires Inv(x) && Reaches(x, es, y)
    ensures Inv(y)
    decreases |es|
  {
    hide Inv;
    if es != [] {
      StepKeeps(x, es[0]);
      InvAlways(Next(x, es[0]).value, es[1..], y);
    }
  }

  /** Whatever members and invitees do, every organization has exactly one owner, its creator, and a
      slug names at most one organization. */
  lemma OneOwnerForever(x: System, es: seq<Event>, y: System, org: OrgId) returns (owner: MemberId)
    requires Initial(x) && Reaches(x, es, y) && org in y.s.organizations
    ensures OwnedBy(y.s, org, owner) && y.s.memberships[owner].user == y.s.organizations[org].createdBy
    ensures forall m :: OwnedBy(y.s, org, m) ==> m == owner
    ensures forall o :: o in y.s.organizations && y.s.organizations[o].slug == y.s.organizations[org].slug ==> o == org
  {
    InvAlways(x, es, y);
    owner :| OwnedBy(y.s, org, owner);
    forall m | OwnedBy(y.s, org, m)
      ensures m == owner
    {
      assert y.s.memberships[m].user == y.s.memberships[owner].user;
    }
  }

  /** Each invitation is accepted at most once, by the account it was addressed to, and an address
      has at most one pending invitation to an organization. */
  lemma InvitationFacts(x: System, es: seq<Event>, y: System)
    requires Initial(x) && Reaches(x, es, y)
    ensures forall i :: 0 <= i < |y.acceptances| ==>
              var (h, u) := y.acceptances[i];
              && h in y.s.invitations && y.s.invitations[h].status.Accepted?
              && u in y.s.emails && y.s.emails[u] == y.s.invitations[h].email
    ensures forall i, j :: 0 <= i < j < |y.acceptances| ==> y.acceptances[i].0 != y.acceptances[j].0
    ensures forall org, email, h, k :: IsPending(y.s, org, email, h) && IsPending(y.s, org, email, k) ==> h == k
  {
    InvAlways(x, es, y);
  }

  /** The audit log decides who is a member with which role, apart from the owners. */
  lemma AuditTellsMembers(x: System, es: seq<Event>, y: System, m: MemberId)
    requires Initial(x) && Reaches(x, es, y)
    ensures m in Ledger(y.s.audits) <==> m in y.s.memberships && !y.s.memberships[m].role.Owner?
    ensures m in Ledger(y.s.audits) ==> Ledger(y.s.audits)[m] == y.s.memberships[m]
  {
    InvAlways(x, es, y);
  }

  /** A member either created the organization or accepted an invitation to it, and nobody is a
      member of one organization twice. */
  lemma MembersWereInvited(x: System, es: seq<Event>, y: System, m: MemberId)
    requires Initial(x) && Reaches(x, es, y) && m in y.s.memberships
    ensures y.s.memberships[m].organization in y.s.organizations
    ensures || y.s.memberships[m].user == y.s.organizations[y.s.memberships[m].organization].createdBy
            || exists i :: && 0 <= i < |y.acceptances| && y.acceptances[i].1 == y.s.memberships[m].user
                           && y.acceptances[i].0 in y.s.invitations
                           && y.s.invitations[y.acceptances[i].0].organization == y.s.memberships[m].organization
    ensures forall n :: && n in y.s.memberships && n != m
                        && y.s.memberships[n].organization == y.s.memberships[m].organization ==>
              y.s.memberships[n].user != y.s.memberships[m].user
  {
    InvAlways(x, es, y);
    var row := y.s.memberships[m];
    if row.role.Owner? {
      assert OwnedBy(y.s, row.organization, m);
    } else {
      assert WasInvited(y, row.organization, row.user);
    }
  }
}
