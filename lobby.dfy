/**
 * The lobby's entities: signed-in users, invitations to a game and the games
 * formed from them. Users are shared by reference between the registry's
 * user list, invitations and games, so a status change made through one is
 * seen through all of them.
 */
module Lobby {
  import opened Lists

  datatype GameUserStatus = NotInvitedYet | Invited | Joined

  /** `GameUser`: the name and connection id are fixed at sign-in; the status changes. */
  class GameUser {
    const name: string
    const connectionId: string
    var status: GameUserStatus

    constructor (name: string, connectionId: string)
      ensures this.name == name && this.connectionId == connectionId && status == NotInvitedYet
    {
      this.name := name;
      this.connectionId := connectionId;
      status := NotInvitedYet;
    }
  }

  /**
   * `FirstOrDefault(u => u.ConnectionId == c)` over a list that may hold
   * `null` (an invited connection id nobody signed in with): the position
   * where the search stops, at the first user with that connection id or
   * at the first `null`, which the lambda dereferences; `|users|` when it
   * runs off the end.
   */
  function StopAtConnection(users: seq<GameUser?>, c: string): (k: nat)
    ensures k <= |users|
    ensures k < |users| ==> users[k] == null || users[k].connectionId == c
    ensures forall j :: 0 <= j < k ==> users[j] != null && users[j].connectionId != c
  {
    if users == [] then 0
    else if users[0] == null || users[0].connectionId == c then 0
    else 1 + StopAtConnection(users[1..], c)
  }

  /** The search for `c` does not dereference a `null`. */
  predicate ConnectionSearchSafe(users: seq<GameUser?>, c: string)
  {
    var k := StopAtConnection(users, c);
    k < |users| ==> users[k] != null
  }

  /** The first user with connection id `c`, or `null`. */
  function FindConnection(users: seq<GameUser?>, c: string): (u: GameUser?)
    requires ConnectionSearchSafe(users, c)
    ensures u == null <==> forall v :: v in users ==> v != null && v.connectionId != c
    ensures u != null ==> u.connectionId == c && u in users
  {
    var k := StopAtConnection(users, c);
    if k < |users| then users[k] else null
  }

  /**
   * Where the loop of `AllInvitedUsersHaveJoined` stops: at the first user
   * who has not joined, or at the first `null`, whose status it reads.
   */
  function StopAtUnjoined(users: seq<GameUser?>): (k: nat)
    reads users
    ensures k <= |users|
    ensures k < |users| ==> users[k] == null || users[k].status != Joined
    ensures forall j :: 0 <= j < k ==> users[j] != null && users[j].status == Joined
  {
    if users == [] then 0
    else if users[0] == null || users[0].status != Joined then 0
    else 1 + StopAtUnjoined(users[1..])
  }

  /**
   * `Invitation`: an inviter and the users invited. The list is `IList`
   * and shrinks when a user declines; the users' statuses are theirs.
   */
  class Invitation {
    const id: string
    const inviter: GameUser?
    var invitedUsers: seq<GameUser?>

    /** Copies the invited users, in order. */
    constructor (id: string, inviter: GameUser?, invited: seq<GameUser?>)
      ensures this.id == id && this.inviter == inviter && invitedUsers == invited
    {
      this.id := id;
      this.inviter := inviter;
      var copied := [];
      for i := 0 to |invited|
        invariant copied == invited[..i]
      {
        copied := copied + [invited[i]];
      }
      assert invited[..|invited|] == invited;
      invitedUsers := copied;
    }

    /** `AllUsers`: the inviter, then the invited users. */
    function AllUsers(): (r: seq<GameUser?>)
      reads this
      ensures |r| == 1 + |invitedUsers| && r[0] == inviter
      ensures forall k :: 0 <= k < |invitedUsers| ==> r[k + 1] == invitedUsers[k]
    {
      [inviter] + invitedUsers
    }

    /** Everyone in the invitation is the inviter or an invited user, and each of them is in it. */
    lemma AllUsersMembers()
      ensures forall u :: u in AllUsers() <==> u == inviter || u in invitedUsers
    {
      var r := AllUsers();
      forall u | u in r
        ensures u == inviter || u in invitedUsers
      {
        var k :| 0 <= k < |r| && r[k] == u;
        if k > 0 {
          assert invitedUsers[k - 1] == u;
        }
      }
    }

    /**
     * `AllInvitedUsersHaveJoined`: false for an empty list, otherwise
     * whether every invited user has joined. The loop reads each user's
     * status until the first one who has not joined, so no `null` may come
     * before it.
     */
    method AllInvitedUsersHaveJoined() returns (b: bool)
      requires var k := StopAtUnjoined(invitedUsers); k < |invitedUsers| ==> invitedUsers[k] != null
      ensures b <==> |invitedUsers| > 0 && forall u :: u in invitedUsers ==> u != null && u.status == Joined
    {
      if |invitedUsers| <= 0 {
        return false;
      }
      for i := 0 to |invitedUsers|
        invariant forall j :: 0 <= j < i ==> invitedUsers[j] != null && invitedUsers[j].status == Joined
      {
        var user := invitedUsers[i];
        if user.status != Joined {
          return false;
        }
      }
      return true;
    }

    /** The invited user `Accept` and `Decline` act on, or `null`. */
    function Match(c: string): (u: GameUser?)
      reads this
      requires ConnectionSearchSafe(invitedUsers, c)
    {
      FindConnection(invitedUsers, c)
    }

    /**
     * `Accept`: the first invited user with the connection id joins; the
     * list and every other user are untouched, and an unknown id is a no-op.
     */
    method Accept(c: string)
      requires ConnectionSearchSafe(invitedUsers, c)
      modifies {Match(c)}
      ensures invitedUsers == old(invitedUsers)
      ensures old(Match(c)) != null ==> old(Match(c)).status == Joined
    {
      var user := FindConnection(invitedUsers, c);
      if user != null {
        user.status := Joined;
      }
    }

    /**
     * `Decline`: the first invited user with the connection id leaves the
     * list, the others keeping their order, and is no longer invited; an
     * unknown id is a no-op.
     */
    method Decline(c: string)
      requires ConnectionSearchSafe(invitedUsers, c)
      modifies this`invitedUsers, {Match(c)}
      ensures var k := StopAtConnection(old(invitedUsers), c);
        if k < |old(invitedUsers)| then
          invitedUsers == old(invitedUsers)[..k] + old(invitedUsers)[k + 1..] &&
          old(Match(c)).status == NotInvitedYet
        else
          invitedUsers == old(invitedUsers)
    {
      var user := FindConnection(invitedUsers, c);
      if user != null {
        var before := invitedUsers;
        var removed := user in before;
        var k := StopAtConnection(before, c);
        assert before[k] !in before[..k];
        RemoveFirstAt(before, k);
        invitedUsers := RemoveFirst(before, user);
        if removed {
          user.status := NotInvitedYet;
        }
      }
    }
  }

  /** `Game`: an id and the users playing, copied in order. */
  class Game {
    const id: string
    const users: seq<GameUser?>

    constructor (id: string, users: seq<GameUser?>)
      ensures this.id == id && this.users == users
    {
      this.id := id;
      var copied := [];
      for i := 0 to |users|
        invariant copied == users[..i]
      {
        copied := copied + [users[i]];
      }
      assert users[..|users|] == users;
      this.users := copied;
    }
  }
}
