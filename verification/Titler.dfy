/**
 * When a conversation's tab takes a new name (daemon/src/titler.ts and the rename step in
 * daemon/src/session.ts). Which words of a name are significant is a parameter, `words`.
 */
module Titler {
  import opened Common

  const MAX_PAST_TITLES: nat := 20

  type Words = string -> set<string>

  // ---------- the decision --------------------------------------------------------

  /** Of the significant words in the next name, less than half are in the current one. */
  ghost predicate Material(words: Words, current: string, next: string) {
    2 * |words(next) * words(current)| < |words(next)|
  }

  method IsMaterialChange(words: Words, current: string, next: string) returns (r: bool)
    ensures r == Material(words, current, next)
  {
    var before, after := words(current), words(next);
    if |after| == 0 {
      return false;
    }
    var shared, todo := 0, after;
    while todo != {}
      invariant shared + |todo * before| == |after * before|
    {
      var w :| w in todo;
      OneFewer(todo, before, w);
      todo := todo - {w};
      if w in before {
        shared := shared + 1;
      }
    }
    assert {} * before == {};
    return shared * 2 < |after|;
  }

  lemma OneFewer(todo: set<string>, before: set<string>, w: string)
    requires w in todo
    ensures |todo * before| == |(todo - {w}) * before| + if w in before then 1 else 0
  {
    var rest := (todo - {w}) * before;
    assert todo * before == if w in before then rest + {w} else rest;
  }

  /** A name is another subject exactly when more of its significant words are new than not. */
  lemma MaterialMeans(words: Words, current: string, next: string)
    ensures Material(words, current, next) <==> |words(next) * words(current)| < |words(next) - words(current)|
  {
    assert words(next) == words(next) * words(current) + (words(next) - words(current));
  }

  lemma SameNameIsNotMaterial(words: Words, name: string)
    ensures !Material(words, name, name)
  {
    assert words(name) * words(name) == words(name);
  }

  datatype Decision =
    | First
    | Confirmed
    | Same
    | Returns
    | Unconfirmed(pending: string)
  {
    predicate Renames() {
      First? || Confirmed?
    }
  }

  /** What a session keeps about its name. */
  datatype Naming = Naming(title: string, past: seq<string>, pending: Option<string>, titledAt: Option<int>)

  ghost predicate NewToAll(words: Words, past: seq<string>, name: string) {
    forall i | 0 <= i < |past| :: Material(words, past[i], name)
  }

  ghost function Decide(words: Words, n: Naming, firstNaming: bool, proposed: string): Decision {
    if !Material(words, n.title, proposed) then Same
    else if firstNaming then First
    else if !NewToAll(words, n.past, proposed) then Returns
    else if n.pending.Some? && n.pending.value != "" && !Material(words, n.pending.value, proposed) then Confirmed
    else Unconfirmed(proposed)
  }

  method DecideRename(words: Words, n: Naming, firstNaming: bool, proposed: string) returns (d: Decision)
    ensures d == Decide(words, n, firstNaming, proposed)
  {
    SameNameIsNotMaterial(words, proposed);
    hide Material;
    if proposed == n.title {
      return Same;
    }
    var material := IsMaterialChange(words, n.title, proposed);
    if !material {
      return Same;
    }
    if firstNaming {
      return First;
    }
    for i := 0 to |n.past|
      invariant NewToAll(words, n.past[..i], proposed)
    {
      var apart := IsMaterialChange(words, n.past[i], proposed);
      if !apart {
        return Returns;
      }
    }
    assert n.past[..|n.past|] == n.past;
    if n.pending.Some? && n.pending.value != "" {
      var changed := IsMaterialChange(words, n.pending.value, proposed);
      if !changed {
        return Confirmed;
      }
    }
    return Unconfirmed(proposed);
  }

  /** The earlier names a title is not a mere rewording of. */
  ghost function Kept(words: Words, past: seq<string>, title: string): seq<string> {
    if past == [] then [] else
      Kept(words, past[..|past| - 1], title)
      + if Material(words, past[|past| - 1], title) then [past[|past| - 1]] else []
  }

  method RememberTitle(words: Words, past: seq<string>, title: string) returns (r: seq<string>)
    ensures r == Last(Kept(words, past, title) + [title], MAX_PAST_TITLES)
  {
    hide Material;
    var kept := [];
    for i := 0 to |past|
      invariant kept == Kept(words, past[..i], title)
    {
      var material := IsMaterialChange(words, past[i], title);
      if material {
        kept := kept + [past[i]];
      }
      assert past[..i + 1][..i] == past[..i];
    }
    assert past[..|past|] == past;
    return Last(kept + [title], MAX_PAST_TITLES);
  }

  lemma {:induction false} NothingFiltered(words: Words, past: seq<string>, title: string)
    requires NewToAll(words, past, title)
    ensures Kept(words, past, title) == past
  {
    hide Material;
    if past == [] {
    } else {
      NothingFiltered(words, past[..|past| - 1], title);
    }
  }

  // ---------- a session's name ----------------------------------------------------------

  /** The session's name after a look, `answer` being None when the namer had nothing. */
  ghost function Looked(words: Words, n: Naming, now: int, answer: Option<string>): Naming {
    var m := n.(titledAt := Some(now));
    if answer.None? || answer.value == "" then m else
      var d := Decide(words, n, n.titledAt.None?, answer.value);
      if d.Unconfirmed? then m.(pending := if d.pending == "" then None else Some(d.pending))
      else if !d.Renames() then m.(pending := None)
      else m.(title := answer.value, pending := None,
              past := if d.First? then n.past else Last(Kept(words, n.past, n.title) + [n.title], MAX_PAST_TITLES))
  }

  function Cleared(n: Naming): Naming {
    n.(titledAt := None, past := [], pending := None)
  }

  class SessionName {
    var title: string
    var pastTitles: seq<string>
    var pendingTitle: Option<string>
    var titledAt: Option<int>

    function State(): Naming
      reads this
    {
      Naming(title, pastTitles, pendingTitle, titledAt)
    }

    constructor (placeholder: string)
      ensures State() == Naming(placeholder, [], None, None)
    {
      title, pastTitles, pendingTitle, titledAt := placeholder, [], None, None;
    }

    /** `/clear` starts another conversation in the same tab. */
    method Clear()
      modifies this
      ensures State() == Cleared(old(State()))
      ensures title == old(title) && titledAt == None && pastTitles == [] && pendingTitle == None
    {
      titledAt := None;
      pastTitles := [];
      pendingTitle := None;
    }

    method MaybeRetitle(words: Words, now: int, name: Option<string>)
      modifies this
      ensures State() == Looked(words, old(State()), now, name)
      ensures titledAt == Some(now)
      ensures !IsAnswered(name) ==>
                title == old(title) && pastTitles == old(pastTitles) && pendingTitle == old(pendingTitle)
      ensures title != old(title) ==> name == Some(title) && Material(words, old(title), title) && pendingTitle == None
    {
      hide Material;
      var firstNaming := titledAt.None?;
      titledAt := Some(now);
      if name.None? || name.value == "" {
        return;
      }
      var proposed := name.value;
      var decision := DecideRename(words, State(), firstNaming, proposed);
      if !decision.Renames() {
        var held := if decision.Unconfirmed? && decision.pending != "" then Some(decision.pending) else None;
        if pendingTitle != held {
          pendingTitle := held;
        }
        return;
      }
      if !firstNaming {
        pastTitles := RememberTitle(words, pastTitles, title);
      }
      pendingTitle := None;
      title := proposed;
    }
  }

  // ---------- whole runs -------------------------------------------------------------------

  datatype Op = Look(now: int, answer: Option<string>) | Clear

  /**
   * A session's name together with what an onlooker saw since the last clear: whether there has
   * been a look, every name worn (the last is the current one), and what the last look with an
   * answer proposed.
   */
  datatype Story = Story(naming: Naming, looked: bool, names: seq<string>, proposed: Option<string>)

  function Opening(placeholder: string): Story {
    Story(Naming(placeholder, [], None, None), false, [placeholder], None)
  }

  predicate IsAnswered(answer: Option<string>) {
    answer.Some? && answer.value != ""
  }

  ghost function Next(words: Words, s: Story, op: Op): Story {
    match op
    case Clear => Story(Cleared(s.naming), false, [s.naming.title], None)
    case Look(now, answer) =>
      var after := Looked(words, s.naming, now, answer);
      Story(after, true,
            if after.title == s.naming.title then s.names
            else if !s.looked then [after.title]
            else s.names + [after.title],
            if IsAnswered(answer) then answer else s.proposed)
  }

  ghost function After(words: Words, placeholder: string, ops: seq<Op>): Story {
    if ops == [] then Opening(placeholder)
    else Next(words, After(words, placeholder, ops[..|ops| - 1]), ops[|ops| - 1])
  }

  /** There has been a look since the last clear. */
  predicate HasLooked(ops: seq<Op>) {
    ops != [] && !ops[|ops| - 1].Clear?
  }

  /** A session through any looks and clears has the name the story tells. */
  method Run(words: Words, placeholder: string, ops: seq<Op>) returns (session: SessionName)
    ensures session.State() == After(words, placeholder, ops).naming
  {
    session := new SessionName(placeholder);
    hide Looked, Material;
    for i := 0 to |ops|
      invariant fresh(session) && session.State() == After(words, placeholder, ops[..i]).naming
    {
      assert ops[..i + 1][..i] == ops[..i];
      match ops[i]
      case Look(now, answer) => session.MaybeRetitle(words, now, answer);
      case Clear => session.Clear();
    }
    assert ops[..|ops|] == ops;
  }

  /** Names up to twenty renames apart are about different things. */
  ghost predicate NeverBack(words: Words, names: seq<string>) {
    forall i, j | 0 <= i < j < |names| && j - i <= MAX_PAST_TITLES :: Material(words, names[i], names[j])
  }

  ghost predicate Sound(words: Words, s: Story) {
    && (s.naming.titledAt.Some? <==> s.looked)
    && s.names != [] && Last(s.names, 1) == [s.naming.title]
    && s.naming.past == Last(s.names[..|s.names| - 1], MAX_PAST_TITLES)
    && NeverBack(words, s.names)
    && (!s.looked ==> |s.names| == 1)
    && (s.naming.pending.Some? ==> s.proposed == s.naming.pending)
  }

  /** What one more name has to be for the names to stay apart. */
  lemma OneMoreName(words: Words, names: seq<string>, name: string)
    requires NeverBack(words, names) && names != []
    requires Material(words, names[|names| - 1], name)
    requires NewToAll(words, Last(names[..|names| - 1], MAX_PAST_TITLES), name)
    ensures NeverBack(words, names + [name])
  {
    hide Material;
    var past := Last(names[..|names| - 1], MAX_PAST_TITLES);
    var n := |names|;
    forall i | n - MAX_PAST_TITLES <= i < n && 0 <= i
      ensures Material(words, names[i], name)
    {
      if i < n - 1 {
        assert names[i] == past[i - (n - 1 - |past|)];
      }
    }
  }

  /** The names kept are all apart from the current one, so the filter drops none of them. */
  lemma PastIsApart(words: Words, s: Story)
    requires Sound(words, s)
    ensures NewToAll(words, s.naming.past, s.naming.title)
    ensures Kept(words, s.naming.past, s.naming.title) == s.naming.past
  {
    hide Material;
    var n, past := |s.names|, s.naming.past;
    assert s.names[n - 1] == s.naming.title;
    forall i | 0 <= i < |past|
      ensures Material(words, past[i], s.naming.title)
    {
      assert past[i] == s.names[n - 1 - |past| + i];
    }
    NothingFiltered(words, past, s.naming.title);
  }

  lemma LastOfLast(names: seq<string>)
    requires names != []
    ensures Last(Last(names[..|names| - 1], MAX_PAST_TITLES) + [names[|names| - 1]], MAX_PAST_TITLES)
         == Last(names, MAX_PAST_TITLES)
  {
    assert names == names[..|names| - 1] + [names[|names| - 1]];
  }

  lemma LookKeepsSound(words: Words, s: Story, now: int, answer: Option<string>)
    requires Sound(words, s)
    ensures Sound(words, Next(words, s, Look(now, answer)))
  {
    hide Material, Kept;
    var after := Looked(words, s.naming, now, answer);
    PastIsApart(words, s);
    if after.title != s.naming.title {
      SameNameIsNotMaterial(words, after.title);
      assert s.names[|s.names| - 1] == s.naming.title;
      if s.looked {
        OneMoreName(words, s.names, after.title);
        LastOfLast(s.names);
        assert (s.names + [after.title])[..|s.names|] == s.names;
      }
    } else if answer.Some? {
      SameNameIsNotMaterial(words, after.title);
    }
  }

  /**
   * Over every run of looks and clears: the names worn in one conversation never come back
   * within twenty renames, the names remembered are exactly the newest twenty left behind,
   * a held proposal is what the last answered look proposed, and a session knows whether it
   * has been looked at since the last clear.
   */
  lemma {:induction false} EveryRunIsSound(words: Words, placeholder: string, ops: seq<Op>)
    ensures Sound(words, After(words, placeholder, ops))
    ensures After(words, placeholder, ops).naming.titledAt.Some? <==> HasLooked(ops)
  {
    if ops == [] {
    } else {
      var before := After(words, placeholder, ops[..|ops| - 1]);
      EveryRunIsSound(words, placeholder, ops[..|ops| - 1]);
      hide Material, Looked;
      match ops[|ops| - 1]
      case Clear =>
      case Look(now, answer) => LookKeepsSound(words, before, now, answer);
    }
  }

  /**
   * After any run with a look since the last clear, a look changes the title only if the
   * answered look before it, since that clear, proposed the name too, up to rewording; and the
   * new name is about something else than the current name and all those remembered.
   */
  lemma RenamesAreAgreed(words: Words, placeholder: string, ops: seq<Op>, now: int, answer: Option<string>)
    requires HasLooked(ops)
    ensures var s := After(words, placeholder, ops);
            var title := Looked(words, s.naming, now, answer).title;
            title != s.naming.title ==>
              && answer == Some(title)
              && s.proposed.Some? && !Material(words, s.proposed.value, title)
              && NewToAll(words, s.naming.past + [s.naming.title], title)
  {
    EveryRunIsSound(words, placeholder, ops);
    hide Material, Kept, After;
  }

  /** The first look after the start or a clear gives its name to the tab, if it is another one. */
  lemma FirstLookNames(words: Words, placeholder: string, ops: seq<Op>, now: int, name: string)
    requires !HasLooked(ops) && name != ""
    ensures var s := After(words, placeholder, ops);
            var after := Looked(words, s.naming, now, Some(name));
            && after.title == (if Material(words, s.naming.title, name) then name else s.naming.title)
            && after.past == [] && after.pending == None && after.titledAt == Some(now)
  {
    EveryRunIsSound(words, placeholder, ops);
    hide Material, Kept, After;
  }

  /** A look without an answer changes nothing but that there has been a look. */
  lemma EmptyLookKeeps(words: Words, n: Naming, now: int, answer: Option<string>)
    requires !IsAnswered(answer)
    ensures Looked(words, n, now, answer) == n.(titledAt := Some(now))
  {
  }

  /** A tab once named does not follow two subjects that take turns. */
  lemma TurnsDoNotRename(words: Words, placeholder: string, a: string, b: string, now: int)
    requires a != "" && b != "" && Material(words, placeholder, a) && Material(words, a, b)
    ensures var named := Looked(words, Opening(placeholder).naming, now, Some(a));
            var other := Looked(words, named, now, Some(b));
            && named.title == other.title == Looked(words, other, now, Some(a)).title == a
            && other.pending == Some(b) && Looked(words, other, now, Some(a)).pending == None
  {
    SameNameIsNotMaterial(words, a);
    hide Material, Kept;
  }

  /**
   * What makes a name stick: two looks in a row proposing it, with looks that have no answer in
   * between or not, give it to the tab exactly when it names something else than the current
   * title and than every name remembered (a first name has only the placeholder to differ from).
   */
  lemma TwoLooksAgree(words: Words, s: Story, now: int, between: int, later: int, name: string)
    requires Sound(words, s) && name != ""
    ensures var once := Looked(words, s.naming, now, Some(name));
            var twice := Looked(words, once, later, Some(name));
            && (twice.title == name <==>
                  name == s.naming.title
                  || (Material(words, s.naming.title, name) && NewToAll(words, s.naming.past, name)))
            && Looked(words, Looked(words, once, between, None), later, Some(name)) == twice
  {
    SameNameIsNotMaterial(words, name);
    hide Material, Kept;
    var once := Looked(words, s.naming, now, Some(name));
    if once.title != name && Material(words, s.naming.title, name) && NewToAll(words, s.naming.past, name) {
      assert once.pending == Some(name);
    }
  }
}
