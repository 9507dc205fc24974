/**
 * The records of QuizViewModel.kt (Question, Quiz, QuizAttempt), the children of a database
 * snapshot as the view model reads them, and the per-user attempt log kept by the backend.
 */
module Records {
  import opened Wrappers

  datatype Question = Question(text: string, options: seq<string>, correctAnswer: int)

  datatype Quiz = Quiz(id: string, title: string, subTitle: string, duration: int,
                       questions: map<string, Question>)

  datatype QuizAttempt = QuizAttempt(quizId: string, quizTitle: string, gradePercentage: int,
                                     completionTime: string)

  /**
   * The outcome of one read of a database path: a callback with a snapshot that does not
   * exist, one with the snapshot's children (already passed through `getValue`), or `onCancelled`.
   */
  datatype Read<T> = Absent | Present(children: seq<T>) | Cancelled

  /** The children that `getValue` could turn into a record, in snapshot order. */
  function Decodable<T>(children: seq<Option<T>>): (r: seq<T>)
    ensures |r| <= |children|
  {
    if children == [] then []
    else Decodable(children[..|children| - 1])
         + (match children[|children| - 1] case Some(x) => [x] case None => [])
  }

  lemma {:induction false} DecodableAppend<T>(xs: seq<Option<T>>, ys: seq<Option<T>>)
    ensures Decodable(xs + ys) == Decodable(xs) + Decodable(ys)
    decreases |ys|
  {
    if ys != [] {
      var last := ys[|ys| - 1];
      assert (xs + ys)[..|xs + ys| - 1] == xs + ys[..|ys| - 1];
      DecodableAppend(xs, ys[..|ys| - 1]);
    } else {
      assert xs + ys == xs;
    }
  }

  /** A record is kept exactly when some child decoded to it. */
  lemma {:induction false} DecodableMembers<T>(children: seq<Option<T>>, x: T)
    ensures x in Decodable(children) <==> Some(x) in children
  {
    if children != [] {
      var init := children[..|children| - 1];
      DecodableMembers(init, x);
      assert children == init + [children[|children| - 1]];
    }
  }

  // ---------------------------------------------------------------------------------------
  // Attempt records under users/<uid>/quizAttempts

  /** The four fields of one attempt child, each `None` when missing. */
  datatype AttemptFields = AttemptFields(quizId: Option<string>, quizTitle: Option<string>,
                                         gradePercentage: Option<int>, timestamp: Option<string>)

  datatype AttemptChild = AttemptChild(key: string, fields: AttemptFields)

  /** A child becomes an attempt only when all four fields are present; `timestamp` is its completion time. */
  function DecodeAttempt(f: AttemptFields): (r: Option<QuizAttempt>)
    ensures r.Some? <==> f.quizId.Some? && f.quizTitle.Some? && f.gradePercentage.Some? && f.timestamp.Some?
    ensures r.Some? ==> f == EncodeAttempt(r.value)
  {
    if f.quizId.Some? && f.quizTitle.Some? && f.gradePercentage.Some? && f.timestamp.Some? then
      Some(QuizAttempt(f.quizId.value, f.quizTitle.value, f.gradePercentage.value, f.timestamp.value))
    else None
  }

  /** The value map that `logQuizCompletion` writes for an attempt. */
  function EncodeAttempt(a: QuizAttempt): (f: AttemptFields)
    ensures f.quizId == Some(a.quizId) && f.gradePercentage == Some(a.gradePercentage)
  {
    AttemptFields(Some(a.quizId), Some(a.quizTitle), Some(a.gradePercentage), Some(a.completionTime))
  }

  lemma AttemptRoundTrip(a: QuizAttempt)
    ensures DecodeAttempt(EncodeAttempt(a)) == Some(a)
  {
  }

  function DecodeAll(children: seq<AttemptChild>): (r: seq<Option<QuizAttempt>>)
    ensures |r| == |children|
    ensures forall k :: 0 <= k < |r| ==> r[k] == DecodeAttempt(children[k].fields)
  {
    seq(|children|, k requires 0 <= k < |children| => DecodeAttempt(children[k].fields))
  }

  /** Some child of the snapshot holds exactly the fields the app writes for `a`. */
  ghost predicate WrittenIn(children: seq<AttemptChild>, a: QuizAttempt) {
    exists c :: c in children && c.fields == EncodeAttempt(a)
  }

  /** Some child of the snapshot carries quiz id `id`. */
  ghost predicate CarriedIn(children: seq<AttemptChild>, id: string) {
    exists c :: c in children && c.fields.quizId == Some(id)
  }

  /** The attempt list that `fetchQuizAttempts` builds from an existing snapshot. */
  function Attempts(children: seq<AttemptChild>): (r: seq<QuizAttempt>)
    ensures |r| <= |children|
    ensures forall a :: a in r ==> WrittenIn(children, a)
  {
    var all := DecodeAll(children);
    forall a | a in Decodable(all) ensures WrittenIn(children, a) {
      DecodableMembers(all, a);
      var k :| 0 <= k < |all| && all[k] == Some(a);
      assert children[k] in children;
    }
    Decodable(all)
  }

  lemma AttemptsAppend(xs: seq<AttemptChild>, ys: seq<AttemptChild>)
    ensures Attempts(xs + ys) == Attempts(xs) + Attempts(ys)
  {
    assert DecodeAll(xs + ys) == DecodeAll(xs) + DecodeAll(ys);
    DecodableAppend(DecodeAll(xs), DecodeAll(ys));
  }

  lemma AttemptsSnoc(children: seq<AttemptChild>, c: AttemptChild)
    ensures Attempts(children + [c])
            == Attempts(children) + (match DecodeAttempt(c.fields) case Some(a) => [a] case None => [])
  {
    AttemptsAppend(children, [c]);
    assert DecodeAll([c])[..0] == [];
  }

  /** An attempt is listed exactly when some child has all four fields and decodes to it. */
  lemma AttemptsMembers(children: seq<AttemptChild>, a: QuizAttempt)
    ensures a in Attempts(children) <==>
            exists k :: 0 <= k < |children| && children[k].fields == EncodeAttempt(a)
  {
    DecodableMembers(DecodeAll(children), a);
    if a in Attempts(children) {
      var k :| 0 <= k < |children| && DecodeAll(children)[k] == Some(a);
      assert children[k].fields == EncodeAttempt(a);
    }
    if exists k :: 0 <= k < |children| && children[k].fields == EncodeAttempt(a) {
      var k :| 0 <= k < |children| && children[k].fields == EncodeAttempt(a);
      assert DecodeAll(children)[k] == Some(a);
    }
  }

  /** Children written by the app (all fields set) are all listed back, in order. */
  lemma {:induction false} AttemptsOfWritten(keys: seq<string>, attempts: seq<QuizAttempt>)
    requires |keys| == |attempts|
    ensures Attempts(seq(|keys|, k requires 0 <= k < |keys| => AttemptChild(keys[k], EncodeAttempt(attempts[k]))))
            == attempts
    decreases |keys|
  {
    var n := |keys|;
    var cs := seq(n, k requires 0 <= k < n => AttemptChild(keys[k], EncodeAttempt(attempts[k])));
    if n > 0 {
      var init := seq(n - 1, k requires 0 <= k < n - 1 => AttemptChild(keys[k], EncodeAttempt(attempts[k])));
      assert cs == init + [cs[n - 1]];
      AttemptsOfWritten(keys[..n - 1], attempts[..n - 1]);
      assert init == seq(n - 1, k requires 0 <= k < n - 1 => AttemptChild(keys[..n - 1][k], EncodeAttempt(attempts[..n - 1][k])));
      AttemptsAppend(init, [cs[n - 1]]);
      assert attempts == attempts[..n - 1] + [attempts[n - 1]];
    }
  }

  /** The distinct non-null `quizId`s among the children: what `fetchUniqueCompletedQuizCount` counts. */
  function QuizIds(children: seq<AttemptChild>): (r: set<string>)
    ensures forall c :: c in children && c.fields.quizId.Some? ==> c.fields.quizId.value in r
    ensures forall id :: id in r ==> CarriedIn(children, id)
  {
    if children == [] then {}
    else
      var init := children[..|children| - 1];
      assert children == init + [children[|children| - 1]];
      QuizIds(init)
      + (match children[|children| - 1].fields.quizId case Some(id) => {id} case None => {})
  }

  /** One more child adds its quiz id, if it has one. */
  lemma QuizIdsSnoc(children: seq<AttemptChild>, c: AttemptChild)
    ensures QuizIds(children + [c])
            == QuizIds(children) + (match c.fields.quizId case Some(id) => {id} case None => {})
  {
    assert (children + [c])[..|children|] == children;
  }

  lemma {:induction false} QuizIdsMembers(children: seq<AttemptChild>, id: string)
    ensures id in QuizIds(children) <==> exists k :: 0 <= k < |children| && children[k].fields.quizId == Some(id)
  {
    if children != [] {
      var n := |children|;
      QuizIdsMembers(children[..n - 1], id);
      assert forall k :: 0 <= k < n - 1 ==> children[..n - 1][k] == children[k];
      if exists k :: 0 <= k < n && children[k].fields.quizId == Some(id) {
        var k :| 0 <= k < n && children[k].fields.quizId == Some(id);
        if k < n - 1 {
          assert children[..n - 1][k].fields.quizId == Some(id);
        }
      }
    }
  }

  /** There are never more distinct quizzes than attempt children. */
  lemma {:induction false} QuizIdsBound(children: seq<AttemptChild>)
    ensures |QuizIds(children)| <= |children|
  {
    if children != [] {
      QuizIdsBound(children[..|children| - 1]);
    }
  }

  /** One more child adds at most one quiz, and none when its quiz was attempted before. */
  lemma QuizIdsAppendOne(children: seq<AttemptChild>, c: AttemptChild)
    ensures |QuizIds(children)| <= |QuizIds(children + [c])| <= |QuizIds(children)| + 1
    ensures (c.fields.quizId.None? || c.fields.quizId.value in QuizIds(children))
            <==> QuizIds(children + [c]) == QuizIds(children)
  {
    var cs := children + [c];
    assert cs[..|cs| - 1] == children;
    match c.fields.quizId
    case None =>
      assert QuizIds(cs) == QuizIds(children);
    case Some(id) =>
      assert QuizIds(cs) == QuizIds(children) + {id};
      if id !in QuizIds(children) {
        assert |QuizIds(cs)| == |QuizIds(children)| + 1;
      } else {
        assert QuizIds(cs) == QuizIds(children);
      }
  }

  /** Every listed attempt's quiz is counted; the count may also include children missing other fields. */
  lemma AttemptQuizzesCounted(children: seq<AttemptChild>)
    ensures forall a :: a in Attempts(children) ==> a.quizId in QuizIds(children)
  {
    forall a | a in Attempts(children) ensures a.quizId in QuizIds(children) {
      AttemptsMembers(children, a);
      var k :| 0 <= k < |children| && children[k].fields == EncodeAttempt(a);
      QuizIdsMembers(children, a.quizId);
    }
  }

  /** A child with a quiz id but no title is counted yet not listed. */
  lemma CountedButNotListed(id: string)
    ensures Attempts([AttemptChild("k", AttemptFields(Some(id), None, Some(50), Some("t")))]) == []
    ensures |QuizIds([AttemptChild("k", AttemptFields(Some(id), None, Some(50), Some("t")))])| == 1
  {
    var cs := [AttemptChild("k", AttemptFields(Some(id), None, Some(50), Some("t")))];
    assert cs[..0] == [];
    assert DecodeAll(cs)[..0] == [];
  }

  // ---------------------------------------------------------------------------------------
  // The backend's attempt log and the one write the app issues to it

  /** `setValue` on users/<userId>/quizAttempts/<key>. */
  datatype AttemptWrite = AttemptWrite(userId: string, key: string, fields: AttemptFields)

  /** The write `logQuizCompletion` issues: none unless all four values are set and push gave a key. */
  function AttemptWriteFor(userId: Option<string>, quizId: Option<string>, quizTitle: Option<string>,
                           grade: Option<int>, pushKey: Option<string>, timestamp: string): (w: Option<AttemptWrite>)
    ensures w.Some? <==> userId.Some? && quizId.Some? && quizTitle.Some? && grade.Some? && pushKey.Some?
    ensures w.Some? ==> w.value.userId == userId.value && w.value.key == pushKey.value
    ensures w.Some? ==> DecodeAttempt(w.value.fields)
                        == Some(QuizAttempt(quizId.value, quizTitle.value, grade.value, timestamp))
  {
    if userId.None? || quizId.None? || quizTitle.None? || grade.None? || pushKey.None? then None
    else Some(AttemptWrite(userId.value, pushKey.value,
                           EncodeAttempt(QuizAttempt(quizId.value, quizTitle.value, grade.value, timestamp))))
  }

  /** The children of one user's attempt log, in key order. */
  type AttemptLog = seq<AttemptChild>

  function Keys(log: AttemptLog): set<string> {
    set c | c in log :: c.key
  }

  /** `i` is the first position of the log whose child has key `key`. */
  ghost predicate FirstWithKey(log: AttemptLog, key: string, i: int) {
    0 <= i < |log| && log[i].key == key && forall j :: 0 <= j < i ==> log[j].key != key
  }

  /** `setValue` at a child key: replaces the child with that key, or adds it. */
  function SetChild(log: AttemptLog, key: string, fields: AttemptFields): (r: AttemptLog)
    ensures AttemptChild(key, fields) in r
    ensures key in Keys(log) ==> |r| == |log|
    ensures forall i :: FirstWithKey(log, key, i) ==> r == log[i := AttemptChild(key, fields)]
  {
    var c := AttemptChild(key, fields);
    if log == [] then [c]
    else if log[0].key == key then
      assert forall i :: FirstWithKey(log, key, i) ==> i == 0;
      [c] + log[1..]
    else
      var rest := SetChild(log[1..], key, fields);
      assert forall i :: FirstWithKey(log, key, i) ==> FirstWithKey(log[1..], key, i - 1);
      assert forall i :: FirstWithKey(log, key, i) ==> [log[0]] + log[1..][i - 1 := c] == log[i := c];
      assert key in Keys(log) ==> key in Keys(log[1..]) by {
        if key in Keys(log) {
          var x :| x in log && x.key == key;
          assert x in log[1..];
        }
      }
      [log[0]] + rest
  }

  /** A freshly pushed key never overwrites: the write appends one child after all the others. */
  lemma {:induction false} SetFreshChild(log: AttemptLog, key: string, fields: AttemptFields)
    requires key !in Keys(log)
    ensures SetChild(log, key, fields) == log + [AttemptChild(key, fields)]
  {
    if log != [] {
      assert log[0] in log;
      assert Keys(log[1..]) <= Keys(log) by {
        forall k | k in Keys(log[1..]) ensures k in Keys(log) {
          var c :| c in log[1..] && c.key == k;
          assert c in log;
        }
      }
      SetFreshChild(log[1..], key, fields);
      assert log == [log[0]] + log[1..];
    }
  }

  /** The whole attempt store: user id to that user's log. */
  type AttemptStore = map<string, AttemptLog>

  function LogOf(store: AttemptStore, userId: string): AttemptLog {
    if userId in store then store[userId] else []
  }

  /** The store after a write; a failed write (`ok` false) is only logged by the app. */
  function Commit(store: AttemptStore, w: Option<AttemptWrite>, ok: bool): (r: AttemptStore)
    ensures w.None? || !ok ==> r == store
    ensures forall u :: (w.None? || !ok || u != w.value.userId) ==> LogOf(r, u) == LogOf(store, u)
    ensures w.Some? && ok ==> LogOf(r, w.value.userId) == SetChild(LogOf(store, w.value.userId), w.value.key, w.value.fields)
  {
    if w.Some? && ok then store[w.value.userId := SetChild(LogOf(store, w.value.userId), w.value.key, w.value.fields)]
    else store
  }

  /** Appending the child the app writes for `a` lists `a` last and counts its quiz. */
  lemma AppendWrittenChild(before: AttemptLog, key: string, a: QuizAttempt)
    ensures var after := before + [AttemptChild(key, EncodeAttempt(a))];
            && Attempts(after) == Attempts(before) + [a]
            && |QuizIds(before)| <= |QuizIds(after)| <= |QuizIds(before)| + 1
            && (a.quizId in QuizIds(before) ==> QuizIds(after) == QuizIds(before))
  {
    var c := AttemptChild(key, EncodeAttempt(a));
    AttemptsSnoc(before, c);
    QuizIdsAppendOne(before, c);
  }

  /**
   * A committed completion with a fresh key adds exactly its attempt to the user's listed
   * attempts, and raises the distinct-quiz count by at most one.
   */
  lemma CommitFreshAttempt(store: AttemptStore, userId: string, quizId: string, title: string,
                           grade: int, key: string, timestamp: string)
    requires key !in Keys(LogOf(store, userId))
    ensures var w := AttemptWriteFor(Some(userId), Some(quizId), Some(title), Some(grade), Some(key), timestamp);
            var after := LogOf(Commit(store, w, true), userId);
            && Attempts(after) == Attempts(LogOf(store, userId)) + [QuizAttempt(quizId, title, grade, timestamp)]
            && |QuizIds(LogOf(store, userId))| <= |QuizIds(after)| <= |QuizIds(LogOf(store, userId))| + 1
            && (quizId in QuizIds(LogOf(store, userId)) ==> QuizIds(after) == QuizIds(LogOf(store, userId)))
  {
    var a := QuizAttempt(quizId, title, grade, timestamp);
    var before := LogOf(store, userId);
    SetFreshChild(before, key, EncodeAttempt(a));
    assert LogOf(Commit(store, AttemptWriteFor(Some(userId), Some(quizId), Some(title), Some(grade), Some(key), timestamp), true), userId)
           == before + [AttemptChild(key, EncodeAttempt(a))];
    AppendWrittenChild(before, key, a);
  }
}
