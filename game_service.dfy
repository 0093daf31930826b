/**
 * The lobby service: who is signed in, the open invitations keyed by id and
 * the games formed from them. Ids come from one counter and are rendered in
 * decimal, so a fresh id never collides with a stored one.
 */
module LobbyService {
  import opened Lists
  import opened Lobby

  /** A decimal digit. */
  function Digit(d: nat): (c: char)
    requires d < 10
    ensures '0' <= c <= '9'
  {
    ('0' as int + d) as char
  }

  /** The value of a decimal digit; any other character reads as zero. */
  function DigitValue(c: char): (d: nat)
    ensures d < 10
  {
    if '0' <= c <= '9' then c as int - '0' as int else 0
  }

  /** `int.ToString()` of a counter value: decimal digits, no leading zero. */
  function Decimal(n: nat): (s: string)
    ensures |s| >= 1 && forall i :: 0 <= i < |s| ==> '0' <= s[i] <= '9'
    ensures n > 0 ==> s[0] != '0'
  {
    if n < 10 then [Digit(n)] else Decimal(n / 10) + [Digit(n % 10)]
  }

  /** Reads a string of decimal digits back as a number. */
  function Parse(s: string): nat
  {
    if s == [] then 0 else Parse(s[..|s| - 1]) * 10 + DigitValue(s[|s| - 1])
  }

  /** Reading a rendered id gives back the counter value. */
  lemma {:induction false} ParseDecimal(n: nat)
    ensures Parse(Decimal(n)) == n
  {
    var s := Decimal(n);
    if n >= 10 {
      var q, d := n / 10, n % 10;
      ParseDecimal(q);
      assert s == Decimal(q) + [Digit(d)];
      assert s[..|s| - 1] == Decimal(q);
      assert n == q * 10 + d;
    }
  }

  /** Distinct counter values render as distinct ids. */
  lemma DecimalInjective(m: nat, n: nat)
    requires m != n
    ensures Decimal(m) != Decimal(n)
  {
    ParseDecimal(m);
    ParseDecimal(n);
  }

  /** `GetUsersByIds`: for each id in turn, the first user signed in with it, or `null`. */
  function UsersByIds(users: seq<GameUser>, ids: seq<string>): (r: seq<GameUser?>)
    ensures |r| == |ids|
    ensures forall i :: 0 <= i < |ids| ==> r[i] == FindConnection(users, ids[i])
    decreases |ids|
  {
    if ids == [] then []
    else UsersByIds(users, ids[..|ids| - 1]) + [FindConnection(users, ids[|ids| - 1])]
  }

  /** The users the invitation loop has marked after `i` ids. */
  lemma UsersByIdsNext(users: seq<GameUser>, ids: seq<string>, i: nat)
    requires i < |ids|
    ensures UsersByIds(users, ids[..i + 1]) == UsersByIds(users, ids[..i]) + [FindConnection(users, ids[i])]
  {
    assert ids[..i + 1][..i] == ids[..i];
  }

  /** `Where(g => g.Users.Contains(user))`: the games the user plays in, in list order. */
  function GamesOf(games: seq<Game>, user: GameUser?): (r: seq<Game>)
    ensures forall g :: g in r ==> g in games && user in g.users
    ensures forall g :: g in games && user in g.users ==> g in r
    ensures |r| <= |games|
  {
    if games == [] then []
    else (if user in games[0].users then [games[0]] else []) + GamesOf(games[1..], user)
  }

  /** Every game id was drawn from the counter before `n`. */
  predicate GameIdsBelow(games: seq<Game>, n: int)
  {
    forall i :: 0 <= i < |games| ==> Parse(games[i].id) < n
  }

  /** No two games share an id. */
  predicate GameIdsDistinct(games: seq<Game>)
  {
    forall i, j :: 0 <= i < j < |games| ==> games[i].id != games[j].id
  }

  /** Every invitation is stored under its own id, drawn from the counter before `n`. */
  predicate InvitationIdsBelow(invitations: map<string, Invitation>, n: int)
  {
    forall k :: k in invitations ==> invitations[k].id == k && Parse(k) < n
  }

  /** No game id is also an invitation id. */
  predicate IdsApart(games: seq<Game>, invitations: map<string, Invitation>)
  {
    forall i :: 0 <= i < |games| ==> games[i].id !in invitations
  }

  /** A game under the next id keeps the game ids fresh, distinct and apart from the invitation ids. */
  lemma AddGame(games: seq<Game>, invitations: map<string, Invitation>, game: Game, n: nat)
    requires GameIdsBelow(games, n) && GameIdsDistinct(games) && InvitationIdsBelow(invitations, n)
    requires IdsApart(games, invitations) && game.id == Decimal(n)
    ensures GameIdsBelow(games + [game], n + 1) && GameIdsDistinct(games + [game])
    ensures IdsApart(games + [game], invitations)
  {
    ParseDecimal(n);
  }

  /** Dropping the game at `k` leaves no game with its id, and the others keep their ids. */
  lemma RemoveGameAt(games: seq<Game>, k: nat, n: int)
    requires GameIdsBelow(games, n) && GameIdsDistinct(games) && k < |games|
    ensures var r := games[..k] + games[k + 1..];
      GameIdsBelow(r, n) && GameIdsDistinct(r) && forall g :: g in r ==> g.id != games[k].id
  {
    var r := games[..k] + games[k + 1..];
    assert forall i :: 0 <= i < |r| ==> r[i] == games[if i < k then i else i + 1];
  }

  /** An invitation under the next id is not stored yet and keeps the stored ids fresh and apart from the game ids. */
  lemma AddInvitation(games: seq<Game>, invitations: map<string, Invitation>, inv: Invitation, n: nat)
    requires InvitationIdsBelow(invitations, n) && GameIdsBelow(games, n) && IdsApart(games, invitations)
    requires inv.id == Decimal(n)
    ensures inv.id !in invitations && InvitationIdsBelow(invitations[inv.id := inv], n + 1)
    ensures IdsApart(games, invitations[inv.id := inv])
  {
    ParseDecimal(n);
  }

  class GameService {
    var games: seq<Game>
    var users: seq<GameUser>
    var invitations: map<string, Invitation>
    var nextId: int

    /**
     * Every stored id was drawn from the counter before its current value:
     * an invitation is stored under its own id, no two games share an id,
     * no game shares an id with an invitation, and a user object signs in once.
     */
    ghost predicate Valid()
      reads this
    {
      && nextId >= 0
      && InvitationIdsBelow(invitations, nextId)
      && GameIdsBelow(games, nextId)
      && GameIdsDistinct(games)
      && IdsApart(games, invitations)
      && Distinct(users)
    }

    constructor ()
      ensures games == [] && users == [] && invitations == map[] && nextId == 0
      ensures Valid()
    {
      games := [];
      users := [];
      invitations := map[];
      nextId := 0;
    }

    /** `GetUserById`: the first signed-in user with the connection id, or `null`. */
    function GetUserById(c: string): (u: GameUser?)
      reads this
      ensures u == null <==> forall v :: v in users ==> v.connectionId != c
      ensures u != null ==> u.connectionId == c && exists k :: (0 <= k < |users| && users[k] == u &&
        forall j :: 0 <= j < k ==> users[j].connectionId != c)
    {
      var k := StopAtConnection(users, c);
      if k < |users| then users[k] else null
    }

    /** `GetUserByName`: the first signed-in user with the name, or `null`. */
    function GetUserByName(name: string): (u: GameUser?)
      reads this
      ensures u == null <==> forall v :: v in users ==> v.name != name
      ensures u != null ==> u.name == name && exists k :: (0 <= k < |users| && users[k] == u &&
        forall j :: 0 <= j < k ==> users[j].name != name)
    {
      var k := FirstWhere(users, (u: GameUser) => u.name == name);
      if k < |users| then users[k] else null
    }

    /** `GetUsersByIds` over the signed-in users. */
    function GetUsersByIds(ids: seq<string>): (r: seq<GameUser?>)
      reads this
      ensures |r| == |ids|
      ensures forall i :: 0 <= i < |ids| ==> r[i] == GetUserById(ids[i])
    {
      UsersByIds(users, ids)
    }

    /**
     * `SignIn`: a new user, not yet invited, joins the end of the list. A
     * connection id already signed in keeps resolving to the earlier user.
     */
    method SignIn(name: string, c: string) returns (u: GameUser)
      requires Valid()
      modifies this`users
      ensures fresh(u) && u.name == name && u.connectionId == c && u.status == NotInvitedYet
      ensures users == old(users) + [u]
      ensures GetUserById(c) == if old(GetUserById(c)) != null then old(GetUserById(c)) else u
      ensures Valid()
    {
      u := new GameUser(name, c);
      users := users + [u];
      assert users[..|users| - 1] == old(users);
      ghost var k := StopAtConnection(users, c);
      assert k <= |old(users)| by {
        assert users[|users| - 1].connectionId == c;
      }
    }

    /**
     * `SignOut`: the first user with the connection id leaves the list, the
     * others keeping their order, and is no longer signed in; an unknown
     * id changes nothing.
     */
    method SignOut(c: string)
      requires Valid()
      modifies this`users
      ensures var k := StopAtConnection(old(users), c);
        users == if k < |old(users)| then old(users)[..k] + old(users)[k + 1..] else old(users)
      ensures old(GetUserById(c)) !in users
      ensures Valid()
    {
      var k := StopAtConnection(users, c);
      if k < |users| {
        var user := users[k];
        assert user !in users[..k];
        RemoveFirstAt(users, k);
        RemoveFirstDistinct(users, user);
        users := RemoveFirst(users, user);
      }
    }

    /** `GetId`: the counter's value, after which the counter moves on. */
    method GetId() returns (id: int)
      modifies this`nextId
      ensures id == old(nextId) && nextId == old(nextId) + 1
      ensures old(Valid()) ==> Valid()
    {
      id := nextId;
      nextId := nextId + 1;
    }

    /** `GetInvitation`: the invitation stored under the id, or `null`. */
    function GetInvitation(id: string): (r: Invitation?)
      reads this
      ensures r == null <==> id !in invitations
      ensures Valid() && r != null ==> r.id == id
    {
      if id in invitations then invitations[id] else null
    }

    /** `GetInvitationsForUser`: the invitations whose invited list holds the user the id resolves to. */
    function GetInvitationsForUser(c: string): (r: set<Invitation>)
      reads this, invitations.Values
      ensures forall inv :: inv in r ==> inv in invitations.Values && GetUserById(c) in inv.invitedUsers
      ensures forall inv :: inv in invitations.Values && GetUserById(c) in inv.invitedUsers ==> inv in r
    {
      var user := GetUserById(c);
      set inv | inv in invitations.Values && user in inv.invitedUsers
    }

    /** `GetMyInvitations`: the invitations sent by the user the id resolves to. */
    function GetMyInvitations(c: string): (r: set<Invitation>)
      reads this
      ensures forall inv :: inv in r ==> inv in invitations.Values && inv.inviter == GetUserById(c)
      ensures forall inv :: inv in invitations.Values && inv.inviter == GetUserById(c) ==> inv in r
    {
      var user := GetUserById(c);
      set inv | inv in invitations.Values && inv.inviter == user
    }

    /** `GetMyGames`: the games the user the id resolves to plays in, in list order. */
    function GetMyGames(c: string): (r: seq<Game>)
      reads this
      ensures forall g :: g in r ==> g in games && GetUserById(c) in g.users
      ensures forall g :: g in games && GetUserById(c) in g.users ==> g in r
    {
      GamesOf(games, GetUserById(c))
    }

    /**
     * `CreateInvitation`: draws a fresh id, records the users the ids
     * resolve to, marks each of them invited, stores the invitation under
     * its id and marks the inviter joined. An inviter who is not signed in
     * makes the last step dereference `null`; the model reports that as
     * `thrown`, in the state reached just before it.
     */
    method CreateInvitation(inviterId: string, ids: seq<string>) returns (inv: Invitation, thrown: bool)
      requires Valid()
      modifies this`nextId, this`invitations, set u | u in users
      ensures fresh(inv) && inv.id == Decimal(old(nextId)) && nextId == old(nextId) + 1
      ensures inv.inviter == old(GetUserById(inviterId)) && inv.invitedUsers == old(GetUsersByIds(ids))
      ensures inv.id !in old(invitations) && invitations == old(invitations)[inv.id := inv]
      ensures thrown <==> inv.inviter == null
      ensures forall u :: u in users ==> (u.status ==
        if u == inv.inviter then Joined
        else if u in inv.invitedUsers then Invited
        else old(u.status))
      ensures GetInvitation(inv.id) == inv && Valid()
      ensures inv in GetMyInvitations(inviterId)
      ensures forall c :: c in ids ==> inv in GetInvitationsForUser(c)
    {
      inv := NewInvitation(inviterId, ids);
      MarkInvited(ids);
      Store(inv);
      thrown := inv.inviter == null;
      if !thrown {
        inv.inviter.status := Joined;
      }
      StoredIsListed(inv, inviterId, ids);
    }

    /** The first steps of `CreateInvitation`: a fresh id and the users the ids resolve to. */
    method NewInvitation(inviterId: string, ids: seq<string>) returns (inv: Invitation)
      requires Valid()
      modifies this`nextId
      ensures fresh(inv) && inv.id == Decimal(old(nextId)) && nextId == old(nextId) + 1
      ensures inv.inviter == GetUserById(inviterId) && inv.invitedUsers == GetUsersByIds(ids)
      ensures inv.inviter == null || inv.inviter in users
      ensures inv.id !in invitations && InvitationIdsBelow(invitations[inv.id := inv], nextId)
      ensures IdsApart(games, invitations[inv.id := inv])
      ensures Valid()
    {
      var n := GetId();
      var invitationId := Decimal(n);
      var inviter := GetUserById(inviterId);
      var usersToInvite := GetUsersByIds(ids);
      inv := new Invitation(invitationId, inviter, usersToInvite);
      AddInvitation(games, invitations, inv, n);
    }

    /** `m_invitations.Add`: the key is fresh, so the invitation is stored under it. */
    method Store(inv: Invitation)
      requires Valid() && inv.id !in invitations && InvitationIdsBelow(invitations[inv.id := inv], nextId)
      requires IdsApart(games, invitations[inv.id := inv])
      modifies this`invitations
      ensures invitations == old(invitations)[inv.id := inv]
      ensures inv in invitations.Values && GetInvitation(inv.id) == inv && Valid()
    {
      invitations := invitations[inv.id := inv];
      assert invitations[inv.id] == inv;
    }

    /** A stored invitation is listed for its inviter and for every id it was sent to. */
    lemma StoredIsListed(inv: Invitation, inviterId: string, ids: seq<string>)
      requires inv in invitations.Values
      requires inv.inviter == GetUserById(inviterId) && inv.invitedUsers == GetUsersByIds(ids)
      ensures inv in GetMyInvitations(inviterId)
      ensures forall c :: c in ids ==> inv in GetInvitationsForUser(c)
    {
      forall c | c in ids
        ensures GetUserById(c) in inv.invitedUsers
      {
        var i :| 0 <= i < |ids| && ids[i] == c;
        assert inv.invitedUsers[i] == GetUserById(c);
      }
    }

    /** The loop of `CreateInvitation`: every user an id resolves to is invited, and no one else changes. */
    method MarkInvited(ids: seq<string>)
      modifies set u | u in users
      ensures forall u :: u in users ==> (u.status ==
        if u in GetUsersByIds(ids) then Invited else old(u.status))
    {
      for i := 0 to |ids|
        invariant forall u :: u in users ==> (u.status ==
          if u in UsersByIds(users, ids[..i]) then Invited else old(u.status))
      {
        UsersByIdsNext(users, ids, i);
        var user := GetUserById(ids[i]);
        if user != null {
          user.status := Invited;
        }
      }
      assert ids[..|ids|] == ids;
    }

    /** `RemoveInvitation`: whether the id was stored; afterwards it is not, and nothing else changes. */
    method RemoveInvitation(id: string) returns (b: bool)
      requires Valid()
      modifies this`invitations
      ensures b == (id in old(invitations)) && invitations == old(invitations) - {id}
      ensures GetInvitation(id) == null
      ensures b ==> forall c :: old(invitations[id]) !in GetInvitationsForUser(c) && old(invitations[id]) !in GetMyInvitations(c)
      ensures Valid()
    {
      b := id in invitations;
      invitations := invitations - {id};
    }

    /**
     * `CreateGame`: a game under a fresh id with the invitation's inviter
     * and invited users, appended to the list; everyone in it finds it
     * among their games.
     */
    method CreateGame(invitation: Invitation) returns (game: Game)
      requires Valid()
      modifies this`nextId, this`games
      ensures fresh(game) && game.id == Decimal(old(nextId)) && nextId == old(nextId) + 1
      ensures game.users == invitation.AllUsers()
      ensures games == old(games) + [game]
      ensures forall c :: GetUserById(c) in invitation.AllUsers() ==> game in GetMyGames(c)
      ensures Valid()
    {
      var n := GetId();
      var gameId := Decimal(n);
      game := new Game(gameId, invitation.AllUsers());
      AddGame(games, invitations, game, n);
      games := games + [game];
    }

    /**
     * `RemoveGame`: the first game with the id leaves the list, the others
     * keeping their order, and no game with that id is left; an unknown id
     * changes nothing and answers false.
     */
    method RemoveGame(id: string) returns (b: bool)
      requires Valid()
      modifies this`games
      ensures var k := FirstWhere(old(games), (g: Game) => g.id == id);
        b == (k < |old(games)|) &&
        games == if b then old(games)[..k] + old(games)[k + 1..] else old(games)
      ensures forall g :: g in games ==> g.id != id
      ensures Valid()
    {
      var k := FirstWhere(games, (g: Game) => g.id == id);
      if k == |games| {
        return false;
      }
      var game := games[k];
      assert game !in games[..k];
      RemoveFirstAt(games, k);
      RemoveGameAt(games, k, nextId);
      games := RemoveFirst(games, game);
      b := true;
    }
  }
}
