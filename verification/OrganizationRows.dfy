/** What each operation on organizations writes, column by column, and how long an invitation runs. */
module OrganizationRows {
  import opened Wrappers
  import opened Text
  import opened Organizations

  ghost predicate MemberOf(s: Store, org: OrgId, user: User) {
    exists m :: m in s.memberships && s.memberships[m].organization == org && s.memberships[m].user == user
  }

  /** A pending invitation of the organization to the address. */
  predicate Waiting(s: Store, org: OrgId, email: string, h: Hash) {
    && h in s.invitations && s.invitations[h].organization == org && s.invitations[h].email == email
    && s.invitations[h].status == Pending
  }

  /** An organization is created with its owner unless its slug is taken. */
  lemma Creation(s: Store, user: User, name: string, slug: string, org: OrgId, member: MemberId)
    ensures var r := Create(s, user, name, slug, org, member);
            if exists o :: o in s.organizations && s.organizations[o].slug == slug then r == Failure(SlugExists)
            else
              r == Success(Store(
                s.emails, s.organizations[org := Organization(Strip(name), slug, user)],
                s.memberships[member := Membership(org, user, Owner)], s.invitations,
                s.audits + [Audit(org, user, Created)], s.mails))
  {
    hide Strip;
  }

  /** An invitation is refused if the address is a member's, or has a pending invitation that still runs, or
      the broker refuses the mail; otherwise it is pending for seven days, and lapsed ones are expired. */
  lemma Inviting(
    s: Store, org: OrgId, actor: User, email: string, role: Grantable, hash: Hash, now: int, refused: bool)
    ensures var r := Invite(s, org, actor, email, role, hash, now, refused);
            if exists u :: u in s.emails && s.emails[u] == email && MemberOf(s, org, u) then r == Failure(AlreadyMember)
            else if exists h :: Waiting(s, org, email, h) && now < s.invitations[h].expiresAt then
              r == Failure(AlreadyPending)
            else if refused then r == Failure(BrokerUnavailable)
            else
              && r.Success?
              && var after := r.value;
                 && after.emails == s.emails && after.organizations == s.organizations
                 && after.memberships == s.memberships && after.mails == s.mails + [hash]
                 && after.audits == s.audits + [Audit(org, actor, Invited(hash, email, role))]
                 && after.invitations.Keys == s.invitations.Keys + {hash}
                 && after.invitations[hash] == Invitation(org, email, role, Pending, now + 604_800)
                 && (forall h :: h in s.invitations && h != hash ==>
                       after.invitations[h] == if Waiting(s, org, email, h) then s.invitations[h].(status := Expired)
                                               else s.invitations[h])
  {
    forall u
      ensures IsMember(s, org, u) == MemberOf(s, org, u)
    {
    }
  }

  /** An invitation is accepted while it is pending and runs, by the person it is addressed to: a member
      keeps the role he has, anybody else gets the role of the invitation. */
  lemma Accepting(s: Store, user: User, hash: Hash, member: MemberId, now: int)
    requires user in s.emails && MembersOk(s)
    ensures var r := Accept(s, user, hash, member, now);
            if hash !in s.invitations then r == Failure(InvitationNotFound)
            else
              var invitation := s.invitations[hash];
              if invitation.status != Pending then r == Failure(NotActive)
              else if invitation.expiresAt <= now then r == Failure(InvitationExpired)
              else if invitation.email != s.emails[user] then r == Failure(EmailMismatch)
              else
                && r.Success?
                && var after := r.value;
                   && after.emails == s.emails && after.organizations == s.organizations && after.mails == s.mails
                   && after.invitations == s.invitations[hash := invitation.(status := Accepted)]
                   && (!MemberOf(s, invitation.organization, user) ==>
                         && after.memberships ==
                              s.memberships[member := Membership(invitation.organization, user, invitation.role)]
                         && after.audits ==
                              s.audits + [Audit(invitation.organization, user, Joined(member, invitation.role))])
                   && (forall m :: m in s.memberships &&
                                   s.memberships[m].organization == invitation.organization &&
                                   s.memberships[m].user == user ==>
                         && after.memberships == s.memberships
                         && after.audits ==
                              s.audits + [Audit(invitation.organization, user, Joined(m, s.memberships[m].role))])
  {
    assert hash in s.invitations ==>
             IsMember(s, s.invitations[hash].organization, user) == MemberOf(s, s.invitations[hash].organization, user);
  }

  /** Of a member of the organization who is not its owner the role is changed, and both roles are told. */
  lemma RoleChanging(s: Store, org: OrgId, actor: User, member: MemberId, role: Grantable)
    ensures var r := ChangeRole(s, org, actor, member, role);
            if member !in s.memberships || s.memberships[member].organization != org then
              r == Failure(MembershipNotFound)
            else if s.memberships[member].role == Owner then r == Failure(OwnerProtected)
            else
              var row := s.memberships[member];
              r == Success(Store(
                s.emails, s.organizations, s.memberships[member := Membership(org, row.user, role)], s.invitations,
                s.audits + [Audit(org, actor, RoleChanged(member, row.role, role))], s.mails))
  {
  }

  /** A member who is not the owner is removed, and nobody else. */
  lemma Removing(s: Store, org: OrgId, actor: User, member: MemberId)
    ensures var r := Remove(s, org, actor, member);
            if member !in s.memberships || s.memberships[member].organization != org then
              r == Failure(MembershipNotFound)
            else if s.memberships[member].role == Owner then r == Failure(OwnerProtected)
            else
              var row := s.memberships[member];
              r == Success(Store(
                s.emails, s.organizations, s.memberships - {member}, s.invitations,
                s.audits + [Audit(org, actor, Removed(member, row.user, row.role))], s.mails))
  {
  }

  /** The cleanup job expires exactly the pending invitations whose time is over. */
  lemma Sweeping(s: Store, now: int)
    ensures var after := Swept(s, now);
            && after == s.(invitations := after.invitations) && after.invitations.Keys == s.invitations.Keys
            && forall h :: h in s.invitations ==>
                 after.invitations[h] ==
                 if s.invitations[h].status == Pending && s.invitations[h].expiresAt < now
                 then s.invitations[h].(status := Expired) else s.invitations[h]
  {
  }

  // ------------------------------------------------- the life of an invitation

  /** The terms stand, and what is not pending stays as it is. */
  ghost predicate Stands(s: Store, t: Store, h: Hash) {
    h in s.invitations ==>
      && h in t.invitations
      && t.invitations[h].(status := Pending) == s.invitations[h].(status := Pending)
      && (s.invitations[h].status != Pending ==> t.invitations[h].status == s.invitations[h].status)
  }

  lemma StepStands(x: System, e: Event, h: Hash)
    requires Next(x, e).Some?
    ensures Stands(x.s, Next(x, e).value.s, h)
  {
  }

  /** Organization, address, role and expiry of an invitation never change, and an accepted or expired one
      never becomes pending again. */
  lemma {:induction false} InvitationStands(x: System, es: seq<Event>, y: System, h: Hash)
    requires Reaches(x, es, y)
    ensures Stands(x.s, y.s, h)
    decreases |es|
  {
    hide Next;
    if es != [] {
      StepStands(x, es[0], h);
      InvitationStands(Next(x, es[0]).value, es[1..], y, h);
    }
  }

  lemma {:induction false} ClockGrows(x: System, es: seq<Event>, y: System)
    requires Reaches(x, es, y)
    ensures x.clock <= y.clock
    decreases |es|
  {
    if es != [] {
      ClockGrows(Next(x, es[0]).value, es[1..], y);
    }
  }

  /** An invitation sent at one time can be accepted less than seven days later, by the person it was
      addressed to, and whoever was no member then has the role that was offered. */
  lemma AcceptedInTime(x: System, sent: Event, es: seq<Event>, y: System, accepted: Event)
    requires sent.Invites? && Next(x, sent).Some? && sent.hash in Next(x, sent).value.s.invitations
    requires Reaches(Next(x, sent).value, es, y)
    requires accepted.Accepts? && accepted.hash == sent.hash && Next(y, accepted).Some?
    ensures Next(y, accepted).value.acceptances != y.acceptances ==>
              && x.clock <= y.clock < x.clock + 604_800
              && accepted.user in y.s.emails && y.s.emails[accepted.user] == sent.email
              && y.s.invitations[sent.hash].status == Pending
              && (!MemberOf(y.s, sent.org, accepted.user) ==>
                    Next(y, accepted).value.s.memberships ==
                    y.s.memberships[accepted.member := Membership(sent.org, accepted.user, sent.role)])
  {
    var z := Next(x, sent).value;
    Inviting(x.s, sent.org, sent.actor, sent.email, sent.role, sent.hash, x.clock, sent.refused);
    InvitationStands(z, es, y, sent.hash);
    ClockGrows(z, es, y);
    assert IsMember(y.s, sent.org, accepted.user) == MemberOf(y.s, sent.org, accepted.user);
  }
}
