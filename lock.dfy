/** The pattern-lock screen that gates the transcription popup (main.py, class PatternLock).

    The lock keeps the sequence of pressed button ids, compares it against a fixed secret on
    submit, and either fires the unlock callback once or starts over with an empty pattern.
    Every status-label text the lock writes is part of its state. */
module Lock {

  /** The secret pattern wired into every lock: diagonal plus an L shape. */
  const Secret: seq<int> := [1, 5, 9, 6, 3]

  const InitialStatus: string := "Draw your pattern"
  const ProgressPrefix: string := "Pattern: "
  const ClearedStatus: string := "Pattern cleared"
  const CorrectStatus: string := "Pattern correct!"
  const IncorrectStatus: string := "Incorrect pattern. Try again."

  /** The id of the button in row i, column j of the grid. */
  function GridId(i: int, j: int): int {
    i * 3 + j + 1
  }

  /** `"* "` repeated n times. */
  function Stars(n: nat): string {
    if n == 0 then "" else "* " + Stars(n - 1)
  }

  /** The status text shown after n buttons have been pressed. */
  function ProgressStatus(n: nat): string {
    ProgressPrefix + Stars(n)
  }

  /** The number of '*' characters in s. */
  function StarCount(s: string): nat {
    if s == [] then 0 else (if s[0] == '*' then 1 else 0) + StarCount(s[1..])
  }

  lemma {:induction false} StarCountAppend(a: string, b: string)
    ensures StarCount(a + b) == StarCount(a) + StarCount(b)
  {
    if a == [] {
      assert a + b == b;
    } else {
      assert (a + b)[1..] == a[1..] + b;
      StarCountAppend(a[1..], b);
    }
  }

  /** `Stars(n)` alternates '*' and ' ', n of each, and so holds exactly n stars. */
  lemma {:induction false} StarsShape(n: nat)
    ensures |Stars(n)| == 2 * n
    ensures forall k :: 0 <= k < |Stars(n)| ==> Stars(n)[k] == (if k % 2 == 0 then '*' else ' ')
    ensures StarCount(Stars(n)) == n
  {
    if n > 0 {
      StarsShape(n - 1);
      StarCountAppend("* ", Stars(n - 1));
      assert StarCount("* ") == 1 by {
        assert "* "[1..] == " ";
        assert " "[1..] == "";
      }
      forall k | 0 <= k < |Stars(n)|
        ensures Stars(n)[k] == (if k % 2 == 0 then '*' else ' ')
      {
        if k >= 2 {
          assert Stars(n)[k] == Stars(n - 1)[k - 2];
        }
      }
    }
  }

  /** The progress text shows one `"* "` per pressed button after the prefix, and no other '*'. */
  lemma ProgressShowsOneStarPerPress(n: nat)
    ensures |ProgressStatus(n)| == |ProgressPrefix| + 2 * n
    ensures ProgressStatus(n)[..|ProgressPrefix|] == ProgressPrefix
    ensures forall k :: 0 <= k < 2 * n ==>
      ProgressStatus(n)[|ProgressPrefix| + k] == (if k % 2 == 0 then '*' else ' ')
    ensures StarCount(ProgressStatus(n)) == n
  {
    StarsShape(n);
    StarCountAppend(ProgressPrefix, Stars(n));
    assert StarCount(ProgressPrefix) == 0 by {
      var p := ProgressPrefix;
      assert p[1..] == "attern: ";
      assert p[2..] == "ttern: ";
      assert p[3..] == "tern: ";
      assert p[4..] == "ern: ";
      assert p[5..] == "rn: ";
      assert p[6..] == "n: ";
      assert p[7..] == ": ";
      assert p[8..] == " ";
      assert p[9..] == "";
    }
    forall k | 0 <= k < 2 * n
      ensures ProgressStatus(n)[|ProgressPrefix| + k] == (if k % 2 == 0 then '*' else ' ')
    {
      assert ProgressStatus(n)[|ProgressPrefix| + k] == Stars(n)[k];
    }
  }

  /** The observable state of a lock: pattern so far, secret, status text, and how many
      times the unlock callback has fired. */
  datatype LockState = LockState(pattern: seq<int>, secret: seq<int>, status: string, unlocks: nat)

  /** A freshly built lock. */
  function Initial(): LockState {
    LockState([], Secret, InitialStatus, 0)
  }

  /** Pressing button `id`. */
  function Add(s: LockState, id: int): LockState {
    s.(pattern := s.pattern + [id], status := ProgressStatus(|s.pattern| + 1))
  }

  /** Pressing Clear. */
  function Clear(s: LockState): LockState {
    s.(pattern := [], status := ClearedStatus)
  }

  /** Pressing Submit. */
  function Check(s: LockState): LockState {
    if s.pattern == s.secret then
      s.(status := CorrectStatus, unlocks := s.unlocks + 1)
    else
      s.(pattern := [], status := IncorrectStatus)
  }

  /** Pressing the buttons `ids` in order. */
  function AddAll(s: LockState, ids: seq<int>): LockState
    decreases |ids|
  {
    if ids == [] then s else AddAll(Add(s, ids[0]), ids[1..])
  }

  /** A fresh lock has an empty pattern and the fixed secret, and has not unlocked. */
  lemma InitialIsEmpty()
    ensures Initial().pattern == [] && |Initial().secret| == 5
    ensures Initial().secret[0] == 1 && Initial().secret[1] == 5 && Initial().secret[2] == 9
    ensures Initial().secret[3] == 6 && Initial().secret[4] == 3
    ensures Initial().unlocks == 0
  {
  }

  /** The grid cell (row, column) whose button carries `id`: the inverse of GridId. */
  function CellOf(id: int): (int, int) {
    ((id - 1) / 3, (id - 1) % 3)
  }

  /** Every grid cell gets an id in 1..9 and the cell can be recovered from its id, so distinct
      cells get distinct ids; and every id in 1..9 is the id of the cell CellOf names. */
  lemma GridIdsAreOneToNine()
    ensures forall i, j :: 0 <= i < 3 && 0 <= j < 3 ==> 1 <= GridId(i, j) <= 9 && CellOf(GridId(i, j)) == (i, j)
    ensures forall id :: 1 <= id <= 9 ==>
      0 <= CellOf(id).0 < 3 && 0 <= CellOf(id).1 < 3 && GridId(CellOf(id).0, CellOf(id).1) == id
  {
    forall i, j | 0 <= i < 3 && 0 <= j < 3
      ensures 1 <= GridId(i, j) <= 9 && CellOf(GridId(i, j)) == (i, j)
    {
      if i == 0 {
        assert GridId(i, j) - 1 == j;
      } else if i == 1 {
        assert GridId(i, j) - 1 == 3 + j;
      } else {
        assert GridId(i, j) - 1 == 6 + j;
      }
    }
    forall id | 1 <= id <= 9
      ensures 0 <= CellOf(id).0 < 3 && 0 <= CellOf(id).1 < 3 && GridId(CellOf(id).0, CellOf(id).1) == id
    {
      var q, r := (id - 1) / 3, (id - 1) % 3;
      assert id - 1 == 3 * q + r;
    }
  }

  /** Builds the button ids in the order the 3x3 grid creates its buttons, row by row. */
  method GridButtonIds() returns (ids: seq<int>)
    ensures |ids| == 9
    ensures forall k :: 0 <= k < |ids| ==> ids[k] == k + 1
  {
    ids := [];
    for i := 0 to 3
      invariant |ids| == 3 * i
      invariant forall k :: 0 <= k < |ids| ==> ids[k] == k + 1
    {
      for j := 0 to 3
        invariant |ids| == 3 * i + j
        invariant forall k :: 0 <= k < |ids| ==> ids[k] == k + 1
      {
        ids := ids + [GridId(i, j)];
      }
    }
  }

  /** Pressing a button appends its id, keeps what was there, and shows one star per press. */
  lemma AddAppends(s: LockState, id: int)
    ensures |Add(s, id).pattern| == |s.pattern| + 1
    ensures Add(s, id).pattern[..|s.pattern|] == s.pattern
    ensures Add(s, id).pattern[|s.pattern|] == id
    ensures StarCount(Add(s, id).status) == |Add(s, id).pattern|
    ensures |Add(s, id).status| == |ProgressPrefix| + 2 * |Add(s, id).pattern|
    ensures Add(s, id).secret == s.secret && Add(s, id).unlocks == s.unlocks
  {
    ProgressShowsOneStarPerPress(|s.pattern| + 1);
    assert (s.pattern + [id])[..|s.pattern|] == s.pattern;
  }

  /** Clear empties the pattern whatever it held; clearing twice is clearing once. */
  lemma ClearIsIdempotent(s: LockState)
    ensures Clear(s).pattern == [] && Clear(s).secret == s.secret && Clear(s).unlocks == s.unlocks
    ensures Clear(Clear(s)) == Clear(s)
  {
  }

  /** Submitting unlocks exactly once when the pattern equals the secret (and keeps the pattern);
      otherwise it never unlocks and empties the pattern. */
  lemma CheckUnlocksIffSecret(s: LockState)
    ensures Check(s).unlocks == s.unlocks + 1 <==> s.pattern == s.secret
    ensures Check(s).unlocks != s.unlocks + 1 ==> Check(s).unlocks == s.unlocks
    ensures s.pattern == s.secret ==> Check(s).pattern == s.pattern
    ensures s.pattern != s.secret ==> Check(s).pattern == []
    ensures Check(s).secret == s.secret
  {
  }

  /** A proper prefix or a proper extension of the secret is rejected. */
  lemma NearMissesAreRejected(s: LockState)
    requires s.secret == Secret
    requires (|s.pattern| < |Secret| && s.pattern == Secret[..|s.pattern|])
          || (|s.pattern| > |Secret| && s.pattern[..|Secret|] == Secret)
    ensures Check(s).unlocks == s.unlocks && Check(s).pattern == []
    ensures Check(s).status == IncorrectStatus
  {
    assert |s.pattern| != |s.secret|;
  }

  /** Pressing a sequence of buttons appends exactly that sequence. */
  lemma {:induction false} AddAllAppends(s: LockState, ids: seq<int>)
    ensures AddAll(s, ids).pattern == s.pattern + ids
    ensures AddAll(s, ids).secret == s.secret && AddAll(s, ids).unlocks == s.unlocks
    decreases |ids|
  {
    if ids != [] {
      AddAllAppends(Add(s, ids[0]), ids[1..]);
      assert (s.pattern + [ids[0]]) + ids[1..] == s.pattern + ids;
    }
  }

  /** After Clear, pressing `ids` and submitting unlocks (once) exactly when `ids` is the
      secret; any other sequence leaves the lock locked with an empty pattern. */
  lemma {:induction false} ClearPressSubmit(s: LockState, ids: seq<int>)
    ensures var t := Check(AddAll(Clear(s), ids));
      (t.unlocks == s.unlocks + 1 <==> ids == s.secret) &&
      (ids != s.secret ==> t.unlocks == s.unlocks && t.pattern == [])
  {
    AddAllAppends(Clear(s), ids);
    assert AddAll(Clear(s), ids).pattern == ids;
  }

  /** A lock widget. The unlock callback is represented by `unlocks`, the number of times it
      has been called; `buttonIds` are the ids of the grid buttons in creation order. */
  class PatternLock {
    var pattern: seq<int>
    const correctPattern: seq<int>
    var status: string
    var unlocks: nat
    var buttonIds: seq<int>

    function View(): LockState
      reads this
    {
      LockState(pattern, correctPattern, status, unlocks)
    }

    constructor ()
      ensures View() == Initial()
      ensures |buttonIds| == 9 && forall k :: 0 <= k < 9 ==> buttonIds[k] == k + 1
    {
      pattern := [];
      correctPattern := Secret;
      status := InitialStatus;
      unlocks := 0;
      var ids := GridButtonIds();
      buttonIds := ids;
    }

    method AddToPattern(btnId: int)
      modifies this
      ensures View() == Add(old(View()), btnId)
      ensures buttonIds == old(buttonIds)
    {
      pattern := pattern + [btnId];
      status := ProgressStatus(|pattern|);
    }

    method ClearPattern()
      modifies this
      ensures View() == Clear(old(View()))
      ensures buttonIds == old(buttonIds)
    {
      pattern := [];
      status := ClearedStatus;
    }

    method CheckPattern()
      modifies this
      ensures View() == Check(old(View()))
      ensures buttonIds == old(buttonIds)
    {
      if pattern == correctPattern {
        status := CorrectStatus;
        unlocks := unlocks + 1;
      } else {
        status := IncorrectStatus;
        pattern := [];
      }
    }
  }
}
