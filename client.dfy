/**
 * The button and points logic of the React client in client/src/App.js. The
 * click, append and delete computations are functions; the component's state
 * (its `useState` hooks) is an `App` object whose methods are the handlers that
 * call the setters. This client identifies its user by a Firebase uid sent in the
 * request body; it shares no identity model with the server's bearer tokens.
 */
module PointsClient {

  import opened Wrappers

  /** A button id is the `Date.now()` timestamp at creation. */
  type ButtonId = int

  /** A user-defined button; `kind` is the object's `type` property. */
  datatype Button = Button(id: ButtonId, name: string, points: int, kind: string)

  /** The part of a Firebase user the logic uses. */
  datatype FirebaseUser = FirebaseUser(uid: string)

  /** The JSON body `updatePoints` posts to `/points`. */
  datatype PointsRequest = PointsRequest(firebaseUid: string, points: int)

  /** The initial value of the button-type field; any other value subtracts. */
  const AddKind := "add"

  /** `newPoints` in `handleButtonClick`. */
  function PointsAfterClick(points: int, button: Button): (r: int)
    ensures button.kind == AddKind ==> r == points + button.points
    ensures button.kind != AddKind ==> r >= 0 && r >= points - button.points
    ensures button.kind != AddKind ==> r == 0 || r == points - button.points
  {
    if button.kind == AddKind then points + button.points
    else if points - button.points < 0 then 0
    else points - button.points
  }

  /** Subtracting a non-negative amount from a non-negative total never raises it
      and never takes it below zero. */
  lemma SubtractStaysInRange(points: int, button: Button)
    requires button.kind != AddKind && points >= 0 && button.points >= 0
    ensures 0 <= PointsAfterClick(points, button) <= points
  {
  }

  /** `[...buttons, newButton]`. */
  function Appended(buttons: seq<Button>, b: Button): (r: seq<Button>)
    ensures |r| == |buttons| + 1
    ensures r[..|buttons|] == buttons && r[|buttons|] == b
  {
    buttons + [b]
  }

  /** `a` is `b` with some elements dropped and the rest in their original order. */
  predicate Subsequence(a: seq<Button>, b: seq<Button>)
  {
    if a == [] then true
    else if b == [] then false
    else (a[0] == b[0] && Subsequence(a[1..], b[1..])) || Subsequence(a, b[1..])
  }

  /** `buttons.filter(button => button.id !== buttonId)`. */
  function WithoutId(buttons: seq<Button>, id: ButtonId): (r: seq<Button>)
    ensures |r| <= |buttons|
  {
    if buttons == [] then []
    else if buttons[0].id == id then WithoutId(buttons[1..], id)
    else [buttons[0]] + WithoutId(buttons[1..], id)
  }

  /** Deleting by id removes every button with that id, keeps every other button as
      often as it occurred, and keeps the survivors in their original order. */
  lemma {:induction false} WithoutIdSpec(buttons: seq<Button>, id: ButtonId)
    ensures forall b :: b in WithoutId(buttons, id) ==> b.id != id
    ensures forall b: Button :: b.id != id ==> multiset(WithoutId(buttons, id))[b] == multiset(buttons)[b]
    ensures Subsequence(WithoutId(buttons, id), buttons)
  {
    if buttons != [] {
      var rest := WithoutId(buttons[1..], id);
      WithoutIdSpec(buttons[1..], id);
      assert buttons == [buttons[0]] + buttons[1..];
      if buttons[0].id == id {
        assert rest == [] || Subsequence(rest, buttons[1..]);
      } else {
        assert ([buttons[0]] + rest)[1..] == rest;
      }
    }
  }

  /** Deleting an id that no button carries leaves the list as it is. */
  lemma {:induction false} WithoutAbsentId(buttons: seq<Button>, id: ButtonId)
    requires forall b :: b in buttons ==> b.id != id
    ensures WithoutId(buttons, id) == buttons
  {
    if buttons != [] {
      WithoutAbsentId(buttons[1..], id);
      assert [buttons[0]] + buttons[1..] == buttons;
    }
  }

  /** Deleting the same id twice is deleting it once. */
  lemma WithoutIdIdempotent(buttons: seq<Button>, id: ButtonId)
    ensures WithoutId(WithoutId(buttons, id), id) == WithoutId(buttons, id)
  {
    WithoutIdSpec(buttons, id);
    WithoutAbsentId(WithoutId(buttons, id), id);
  }

  /** Deleting distributes over appending: a new button survives unless it has the id. */
  lemma {:induction false} WithoutIdAppended(buttons: seq<Button>, b: Button, id: ButtonId)
    ensures WithoutId(Appended(buttons, b), id) ==
      if b.id == id then WithoutId(buttons, id) else Appended(WithoutId(buttons, id), b)
  {
    if buttons == [] {
      assert Appended(buttons, b) == [b];
      assert WithoutId([b], id) == if b.id == id then [] else [b] by {
        assert [b][1..] == [];
      }
    } else {
      var all := Appended(buttons, b);
      var tail := WithoutId(buttons[1..], id);
      assert all[0] == buttons[0] && all[1..] == Appended(buttons[1..], b);
      WithoutIdAppended(buttons[1..], b, id);
      if buttons[0].id == id {
        assert WithoutId(buttons, id) == tail;
      } else {
        assert WithoutId(buttons, id) == [buttons[0]] + tail;
        assert b.id != id ==> [buttons[0]] + Appended(tail, b) == Appended([buttons[0]] + tail, b);
      }
    }
  }

  /** Deleting two ids gives the same list in either order. */
  lemma {:induction false} WithoutIdCommutes(buttons: seq<Button>, x: ButtonId, y: ButtonId)
    ensures WithoutId(WithoutId(buttons, x), y) == WithoutId(WithoutId(buttons, y), x)
  {
    if buttons != [] {
      WithoutIdCommutes(buttons[1..], x, y);
    }
  }

  /** The state hooks of the `App` component that the button and points logic uses. */
  class App {
    var points: int
    var isLoggedIn: bool
    var user: Option<FirebaseUser>
    var buttons: seq<Button>
    var showCreateForm: bool
    var newButtonName: string
    var newButtonPoints: string
    var newButtonType: string

    /** Signed out means: no user, not logged in, zero points. */
    ghost predicate Valid()
      reads this
    {
      (isLoggedIn <==> user.Some?) && (user.None? ==> points == 0)
    }

    /** The initial state; `saved` is the list read back from local storage. */
    constructor (saved: seq<Button>)
      ensures Valid()
      ensures points == 0 && !isLoggedIn && user == None && buttons == saved
      ensures !showCreateForm && newButtonName == "" && newButtonPoints == "" && newButtonType == AddKind
    {
      points := 0;
      isLoggedIn := false;
      user := None;
      buttons := saved;
      showCreateForm := false;
      newButtonName := "";
      newButtonPoints := "";
      newButtonType := AddKind;
    }

    /** The `onAuthStateChanged` callback; the points fetch it starts for a user is not modelled here. */
    method AuthStateChanged(signedIn: Option<FirebaseUser>)
      requires Valid()
      modifies this
      ensures Valid()
      ensures user == signedIn && isLoggedIn == signedIn.Some?
      ensures points == if signedIn.None? then 0 else old(points)
      ensures buttons == old(buttons) && showCreateForm == old(showCreateForm)
      ensures newButtonName == old(newButtonName) && newButtonPoints == old(newButtonPoints)
      ensures newButtonType == old(newButtonType)
    {
      if signedIn.Some? {
        user := signedIn;
        isLoggedIn := true;
      } else {
        user := None;
        isLoggedIn := false;
        points := 0;
      }
    }

    /** `handleCreateButton`; `now` is `Date.now()` and `amount` what `parseInt`
        makes of the points field. The type field keeps its value. */
    method CreateButton(now: ButtonId, amount: int)
      requires Valid()
      modifies this
      ensures Valid()
      ensures buttons == Appended(old(buttons), Button(now, old(newButtonName), amount, old(newButtonType)))
      ensures newButtonName == "" && newButtonPoints == "" && !showCreateForm
      ensures newButtonType == old(newButtonType)
      ensures points == old(points) && user == old(user) && isLoggedIn == old(isLoggedIn)
    {
      var b := Button(now, newButtonName, amount, newButtonType);
      buttons := Appended(buttons, b);
      newButtonName := "";
      newButtonPoints := "";
      showCreateForm := false;
    }

    /** `handleDeleteButton`. */
    method DeleteButton(id: ButtonId)
      requires Valid()
      modifies this`buttons
      ensures Valid()
      ensures buttons == WithoutId(old(buttons), id)
    {
      buttons := WithoutId(buttons, id);
    }

    /** `handleButtonClick` with the guard of `updatePoints`: the request it posts, or
        nothing when no user is signed in. The click itself changes no state. */
    method ButtonClick(button: Button) returns (request: Option<PointsRequest>)
      requires Valid()
      ensures request.None? <==> user.None?
      ensures request.Some? ==>
        request.value.firebaseUid == user.value.uid &&
        request.value.points == PointsAfterClick(points, button)
    {
      var newPoints := PointsAfterClick(points, button);
      if user.None? {
        return None;
      }
      request := Some(PointsRequest(user.value.uid, newPoints));
    }

    /** `setPoints(data.points)` when a points response is ok, as `fetchPoints` and
        `updatePoints` do; both only run for a signed-in user. */
    method ReceivePoints(ok: bool, value: int)
      requires Valid() && user.Some?
      modifies this`points
      ensures Valid()
      ensures points == if ok then value else old(points)
    {
      if ok {
        points := value;
      }
    }
  }
}
