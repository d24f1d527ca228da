/** The music player's reducer and its play history
    (crates/frontend/src/music_context.rs).  The floating-point fields (time,
    duration, volume, lyrics offset) are not part of this model. */
module PlayerHistory {
  import opened Basics
  import PageState

  type Song = nat   // an opaque SongDetail

  datatype Entry = Entry(id: string, song: Song)

  datatype NextSongMode = Random | Semantic | PlaylistSequential

  datatype Player = Player(
    currentSong: Option<Song>, songId: Option<string>, playing: bool, minimized: bool, visible: bool,
    history: seq<Entry>, historyIndex: Option<nat>, nextMode: NextSongMode,
    candidates: seq<string>, playlistIds: seq<string>, playlistSource: Option<string>)

  const DEFAULT := Player(None, None, false, false, false, [], None, Random, [], [], None)

  datatype Action =
    | PlaySong(song: Song, id: string)
    | LoadSong(song: Song, id: string)
    | TogglePlay
    | Pause
    | Tune                                // sets one of the fields left out
    | Minimize
    | Expand
    | Close
    | PlayPrev
    | PlayNext(fallback: Option<Entry>)
    | SetNextMode(mode: NextSongMode)
    | SetCandidates(candidates: seq<string>)
    | SetPlaylist(source: string, ids: seq<string>)

  // ---- Playlist normalisation ------------------------------------------------------

  function TrimStart(s: string): string {
    if s != [] && PageState.IsWhitespace(s[0]) then TrimStart(s[1..]) else s
  }

  function TrimEnd(s: string): string {
    if s != [] && PageState.IsWhitespace(s[|s| - 1]) then TrimEnd(s[..|s| - 1]) else s
  }

  function Trim(s: string): string {
    TrimEnd(TrimStart(s))
  }

  /** The trimmed, non-empty ids, each at its first occurrence. */
  function Normalized(ids: seq<string>): seq<string> {
    if ids == [] then []
    else
      var init, id := Normalized(ids[..|ids| - 1]), Trim(ids[|ids| - 1]);
      if id == "" || id in init then init else init + [id]
  }

  lemma {:induction false} NormalizedMeans(ids: seq<string>)
    ensures forall i, j :: 0 <= i < j < |Normalized(ids)| ==> Normalized(ids)[i] != Normalized(ids)[j]
    ensures forall x :: x in Normalized(ids) <==> x != "" && exists i :: 0 <= i < |ids| && Trim(ids[i]) == x
  {
    if ids != [] {
      var n := |ids| - 1;
      NormalizedMeans(ids[..n]);
      forall x | x in Normalized(ids) ensures exists i :: 0 <= i < |ids| && Trim(ids[i]) == x {
        if x in Normalized(ids[..n]) {
          var i :| 0 <= i < n && Trim(ids[..n][i]) == x;
          assert Trim(ids[i]) == x;
        } else {
          assert Trim(ids[n]) == x;
        }
      }
      forall x, i | x != "" && 0 <= i < |ids| && Trim(ids[i]) == x ensures x in Normalized(ids) {
        if i < n {
          assert Trim(ids[..n][i]) == x;
        }
      }
    }
  }

  /** The ids come in the order of their first occurrence: more ids only add to the end. */
  lemma {:induction false} NormalizedInOrder(ids: seq<string>, k: nat)
    requires k <= |ids|
    ensures Normalized(ids[..k]) <= Normalized(ids)
    decreases |ids|
  {
    if k < |ids| {
      assert ids[..|ids| - 1][..k] == ids[..k];
      NormalizedInOrder(ids[..|ids| - 1], k);
    } else {
      assert ids[..k] == ids;
    }
  }

  method NormalizeIds(ids: seq<string>) returns (normalized: seq<string>)
    ensures normalized == Normalized(ids)
  {
    var seen: set<string> := {};
    normalized := [];
    var n := 0;
    while n < |ids|
      invariant 0 <= n <= |ids|
      invariant normalized == Normalized(ids[..n])
      invariant forall x :: x in seen <==> x in normalized
    {
      assert ids[..n + 1][..n] == ids[..n];
      var trimmed := Trim(ids[n]);
      n := n + 1;
      if trimmed == "" {
        continue;
      }
      if trimmed !in seen {
        seen := seen + {trimmed};
        normalized := normalized + [trimmed];
      }
    }
    assert ids[..n] == ids;
  }

  // ---- The reducer --------------------------------------------------------------------

  /** `history.truncate(idx + 1)`, then push, then point at the new entry. */
  function Pushed(p: Player, e: Entry): Player {
    var kept := if p.historyIndex.Some? then p.history[..Min(p.historyIndex.value + 1, |p.history|)] else p.history;
    p.(history := kept + [e], historyIndex := Some(|kept|))
  }

  /** What PlaySong and LoadSong share. */
  function Opened(p: Player, song: Song, id: string): Player {
    var q := if p.songId != Some(id) then Pushed(p, Entry(id, song)) else p;
    q.(currentSong := Some(song), songId := Some(id), visible := true, minimized := false)
  }

  /** Point at position `i` of the history and play it. */
  function MovedTo(p: Player, i: nat): Player
    requires i < |p.history|
  {
    p.(songId := Some(p.history[i].id), currentSong := Some(p.history[i].song), historyIndex := Some(i),
       playing := true, visible := true)
  }

  function Reduced(p: Player, a: Action): Player {
    match a
    case PlaySong(song, id) => Opened(p, song, id).(playing := true)
    case LoadSong(song, id) => Opened(p, song, id)
    case TogglePlay => p.(playing := !p.playing)
    case Pause => p.(playing := false)
    case Tune => p
    case Minimize => p.(minimized := true)
    case Expand => p.(minimized := false)
    case Close => p.(playing := false, visible := false, minimized := false)
    case PlayPrev =>
      if p.historyIndex.Some? && 0 < p.historyIndex.value <= |p.history| then MovedTo(p, p.historyIndex.value - 1) else p
    case PlayNext(fallback) =>
      if p.historyIndex.Some? && p.historyIndex.value + 1 < |p.history| then MovedTo(p, p.historyIndex.value + 1)
      else if fallback.None? then p
      else
        var q := p.(history := p.history + [fallback.value]);
        MovedTo(q, if p.historyIndex.Some? then |p.history| else 0)
    case SetNextMode(mode) => p.(candidates := if mode != Semantic then [] else p.candidates, nextMode := mode)
    case SetCandidates(c) => p.(candidates := c)
    case SetPlaylist(source, ids) =>
      p.(playlistIds := Normalized(ids), playlistSource := if Trim(source) == "" then None else Some(source))
  }

  /** History, index and song id agree: nothing has been played, or the index
      points at the entry of the current song id. */
  ghost predicate Coherent(p: Player) {
    && (p.history == [] <==> p.historyIndex.None?)
    && (p.historyIndex.None? <==> p.songId.None?)
    && (p.historyIndex.Some? ==>
          p.historyIndex.value < |p.history| && p.songId == Some(p.history[p.historyIndex.value].id))
  }

  method PushEntry(p: Player, e: Entry) returns (next: Player)
    requires p.historyIndex.Some? ==> p.historyIndex.value < |p.history|
    ensures next == Pushed(p, e)
  {
    next := p;
    if next.historyIndex.Some? {
      next := next.(history := next.history[..next.historyIndex.value + 1]);
    }
    next := next.(history := next.history + [e]);
    next := next.(historyIndex := Some(|next.history| - 1));
  }

  method PointAt(p: Player, i: nat) returns (next: Player)
    requires i < |p.history|
    ensures next == MovedTo(p, i)
  {
    var entry := p.history[i];
    next := p.(songId := Some(entry.id));
    next := next.(currentSong := Some(entry.song));
    next := next.(historyIndex := Some(i));
    next := next.(playing := true, visible := true);
  }

  /** The arms for PlaySong and LoadSong; only the first starts playing. */
  method OpenSong(p: Player, song: Song, id: string, play: bool) returns (next: Player)
    requires Coherent(p)
    ensures next == Reduced(p, if play then PlaySong(song, id) else LoadSong(song, id))
  {
    next := p;
    if next.songId != Some(id) {
      next := PushEntry(next, Entry(id, song));
    }
    next := next.(currentSong := Some(song));
    next := next.(songId := Some(id));
    if play {
      next := next.(playing := true);
    }
    next := next.(visible := true);
    next := next.(minimized := false);
  }

  method StepBack(p: Player) returns (next: Player)
    requires Coherent(p)
    ensures next == Reduced(p, PlayPrev)
  {
    next := p;
    if next.historyIndex.Some? {
      var idx := next.historyIndex.value;
      if idx > 0 {
        next := PointAt(next, idx - 1);
      }
    }
  }

  method StepForward(p: Player, fallback: Option<Entry>) returns (next: Player)
    requires Coherent(p)
    ensures next == Reduced(p, PlayNext(fallback))
  {
    next := p;
    if next.historyIndex.Some? {
      var idx := next.historyIndex.value;
      if idx + 1 < |next.history| {
        next := PointAt(next, idx + 1);
      } else if fallback.Some? {
        next := next.(history := next.history + [fallback.value]);
        next := PointAt(next, |next.history| - 1);
      }
    } else if fallback.Some? {
      next := next.(history := next.history + [fallback.value]);
      next := PointAt(next, 0);
    }
  }

  /** `reduce`: clone, then update the clone.  Indexing the history cannot fail,
      because every reachable state is coherent. */
  method Reduce(p: Player, a: Action) returns (next: Player)
    requires Coherent(p)
    ensures next == Reduced(p, a)
  {
    next := p;
    match a {
      case PlaySong(song, id) => next := OpenSong(p, song, id, true);
      case LoadSong(song, id) => next := OpenSong(p, song, id, false);
      case TogglePlay => next := next.(playing := !next.playing);
      case Pause => next := next.(playing := false);
      case Tune =>
      case Minimize => next := next.(minimized := true);
      case Expand => next := next.(minimized := false);
      case Close => next := next.(playing := false, visible := false, minimized := false);
      case PlayPrev => next := StepBack(p);
      case PlayNext(fallback) => next := StepForward(p, fallback);
      case SetNextMode(mode) =>
        if mode != Semantic {
          next := next.(candidates := []);
        }
        next := next.(nextMode := mode);
      case SetCandidates(c) => next := next.(candidates := c);
      case SetPlaylist(source, ids) =>
        var normalized := NormalizeIds(ids);
        next := next.(playlistIds := normalized);
        next := next.(playlistSource := if Trim(source) == "" then None else Some(source));
    }
  }

  // ---- The zipper ------------------------------------------------------------------------

  /** What was played before, what is current, what lies ahead. */
  datatype Zipper = Nothing | Zipper(back: seq<Entry>, current: Entry, forward: seq<Entry>)

  function Open(z: Zipper, e: Entry): Zipper {
    match z
    case Nothing => Zipper([], e, [])
    case Zipper(back, current, _) => Zipper(back + [current], e, [])
  }

  function Back(z: Zipper): Zipper {
    if z.Nothing? || z.back == [] then z
    else Zipper(z.back[..|z.back| - 1], z.back[|z.back| - 1], [z.current] + z.forward)
  }

  function Forward(z: Zipper, fallback: Option<Entry>): Zipper {
    if z.Zipper? && z.forward != [] then Zipper(z.back + [z.current], z.forward[0], z.forward[1..])
    else if fallback.Some? then Open(z, fallback.value)
    else z
  }

  function ZipperStep(z: Zipper, a: Action): Zipper {
    match a
    case PlaySong(song, id) => if z.Zipper? && z.current.id == id then z else Open(z, Entry(id, song))
    case LoadSong(song, id) => if z.Zipper? && z.current.id == id then z else Open(z, Entry(id, song))
    case PlayPrev => Back(z)
    case PlayNext(fallback) => Forward(z, fallback)
    case _ => z
  }

  function AsZipper(p: Player): Zipper
    requires p.historyIndex.Some? ==> p.historyIndex.value < |p.history|
  {
    if p.historyIndex.None? then Nothing
    else
      var i := p.historyIndex.value;
      Zipper(p.history[..i], p.history[i], p.history[i + 1..])
  }

  lemma PushedRefines(p: Player, e: Entry)
    requires Coherent(p)
    ensures var q := Pushed(p, e).(songId := Some(e.id));
            Coherent(q) && AsZipper(q) == Open(AsZipper(p), e)
  {
    if p.historyIndex.Some? {
      var i := p.historyIndex.value;
      assert p.history[..i + 1] == p.history[..i] + [p.history[i]];
    }
  }

  lemma OpenedRefines(p: Player, song: Song, id: string)
    requires Coherent(p)
    ensures Coherent(Opened(p, song, id))
    ensures AsZipper(Opened(p, song, id)) ==
              if p.songId == Some(id) then AsZipper(p) else Open(AsZipper(p), Entry(id, song))
  {
    PushedRefines(p, Entry(id, song));
  }

  lemma PrevRefines(p: Player)
    requires Coherent(p)
    ensures Coherent(Reduced(p, PlayPrev)) && AsZipper(Reduced(p, PlayPrev)) == Back(AsZipper(p))
  {
    if p.historyIndex.Some? {
      var i := p.historyIndex.value;
      assert p.history[i..] == [p.history[i]] + p.history[i + 1..];
    }
  }

  lemma AdvanceRefines(p: Player, fallback: Option<Entry>)
    requires Coherent(p) && p.historyIndex.Some? && p.historyIndex.value + 1 < |p.history|
    ensures var q := MovedTo(p, p.historyIndex.value + 1);
            Coherent(q) && AsZipper(q) == Forward(AsZipper(p), fallback)
  {
    var i := p.historyIndex.value;
    assert p.history[..i + 1] == p.history[..i] + [p.history[i]];
    assert p.history[i + 1..][1..] == p.history[i + 2..];
  }

  lemma FallbackRefines(p: Player, e: Entry)
    requires Coherent(p) && (p.historyIndex.Some? ==> p.historyIndex.value + 1 == |p.history|)
    ensures var q := MovedTo(p.(history := p.history + [e]), |p.history|);
            Coherent(q) && AsZipper(q) == Forward(AsZipper(p), Some(e))
  {
    if p.historyIndex.Some? {
      var i := p.historyIndex.value;
      assert (p.history + [e])[..i + 1] == p.history[..i] + [p.history[i]];
    }
  }

  lemma NextRefines(p: Player, fallback: Option<Entry>)
    requires Coherent(p)
    ensures var q := Reduced(p, PlayNext(fallback));
            Coherent(q) && AsZipper(q) == Forward(AsZipper(p), fallback)
  {
    if p.historyIndex.Some? && p.historyIndex.value + 1 < |p.history| {
      AdvanceRefines(p, fallback);
    } else if fallback.Some? {
      FallbackRefines(p, fallback.value);
    }
  }

  /** Every action keeps the state coherent and moves the zipper as it should. */
  lemma StepRefines(p: Player, a: Action)
    requires Coherent(p)
    ensures Coherent(Reduced(p, a)) && AsZipper(Reduced(p, a)) == ZipperStep(AsZipper(p), a)
  {
    match a
    case PlaySong(song, id) => OpenedRefines(p, song, id);
    case LoadSong(song, id) => OpenedRefines(p, song, id);
    case PlayPrev => PrevRefines(p);
    case PlayNext(fallback) => NextRefines(p, fallback);
    case _ =>
  }

  function ReduceAll(p: Player, actions: seq<Action>): Player {
    if actions == [] then p else Reduced(ReduceAll(p, actions[..|actions| - 1]), actions[|actions| - 1])
  }

  function ZipperSteps(z: Zipper, actions: seq<Action>): Zipper {
    if actions == [] then z else ZipperStep(ZipperSteps(z, actions[..|actions| - 1]), actions[|actions| - 1])
  }

  /** Over every run from the default state the history behaves as the zipper. */
  lemma {:induction false} RunRefines(actions: seq<Action>)
    ensures Coherent(ReduceAll(DEFAULT, actions))
    ensures AsZipper(ReduceAll(DEFAULT, actions)) == ZipperSteps(Nothing, actions)
  {
    if actions != [] {
      RunRefines(actions[..|actions| - 1]);
      StepRefines(ReduceAll(DEFAULT, actions[..|actions| - 1]), actions[|actions| - 1]);
    }
  }

  // ---- What the listener sees --------------------------------------------------------------

  /** What every action does besides the history.  Choosing a song shows it, at
      full size; only playing it starts the music. */
  lemma OpeningShows(p: Player, song: Song, id: string, play: bool)
    ensures var q := Reduced(p, if play then PlaySong(song, id) else LoadSong(song, id));
            && q.currentSong == Some(song) && q.songId == Some(id)
            && q.visible && !q.minimized && (q.playing <==> play || p.playing)
            && q.nextMode == p.nextMode && q.candidates == p.candidates
            && q.playlistIds == p.playlistIds && q.playlistSource == p.playlistSource
            && (p.songId == Some(id) ==> q.history == p.history && q.historyIndex == p.historyIndex)
  {
  }

  /** Moving in the history, or on to a fallback, plays the entry it comes to;
      where there is nothing to move to, nothing changes. */
  lemma MovingPlays(p: Player, a: Action)
    requires Coherent(p) && (a.PlayPrev? || a.PlayNext?)
    ensures var q := Reduced(p, a);
            || q == p
            || (&& q.historyIndex.Some? && q.historyIndex.value < |q.history|
                && q.currentSong == Some(q.history[q.historyIndex.value].song)
                && q.songId == Some(q.history[q.historyIndex.value].id)
                && q.playing && q.visible && q.minimized == p.minimized
                && q.nextMode == p.nextMode && q.candidates == p.candidates)
    ensures Reduced(p, a) == p <==>
              if a.PlayPrev? then p.historyIndex.None? || p.historyIndex.value == 0
              else a.fallback.None? && (p.historyIndex.None? || p.historyIndex.value + 1 == |p.history|)
  {
    if p.historyIndex.Some? && Reduced(p, a) != p {
      assert Reduced(p, a).historyIndex != p.historyIndex;
    }
  }

  /** The controls leave the music and the history alone. */
  lemma ControlsOnlyControl(p: Player, a: Action)
    requires !a.PlaySong? && !a.LoadSong? && !a.PlayPrev? && !a.PlayNext?
    ensures var q := Reduced(p, a);
            && q.currentSong == p.currentSong && q.songId == p.songId
            && q.history == p.history && q.historyIndex == p.historyIndex
            && (q.playing <==> if a.TogglePlay? then !p.playing else p.playing && !a.Pause? && !a.Close?)
            && (q.visible <==> p.visible && !a.Close?)
            && (q.minimized <==> a.Minimize? || (p.minimized && !a.Expand? && !a.Close?))
            && (q.nextMode == if a.SetNextMode? then a.mode else p.nextMode)
            && (a.SetCandidates? ==> q.candidates == a.candidates)
            && (a.SetNextMode? && a.mode != Semantic ==> q.candidates == [])
            && (!a.SetCandidates? && !(a.SetNextMode? && a.mode != Semantic) ==> q.candidates == p.candidates)
            && (!a.SetPlaylist? ==> q.playlistIds == p.playlistIds && q.playlistSource == p.playlistSource)
  {
  }

  /** A playlist keeps its name unless that is blank. */
  lemma PlaylistNamed(p: Player, source: string, ids: seq<string>)
    ensures var q := Reduced(p, SetPlaylist(source, ids));
            && q.playlistIds == Normalized(ids)
            && (q.playlistSource.None? <==> PageState.Blank(source))
            && (q.playlistSource.Some? ==> q.playlistSource.value == source)
  {
    TrimIsBlank(source);
  }

  lemma TrimIsBlank(s: string)
    ensures Trim(s) == "" <==> PageState.Blank(s)
  {
    TrimStartMeans(s);
    TrimEndMeans(TrimStart(s));
  }

  /** Trimming removes whitespace at one end and stops before anything else. */
  lemma {:induction false} TrimStartMeans(s: string)
    ensures TrimStart(s) != "" ==> !PageState.IsWhitespace(TrimStart(s)[0])
    ensures TrimStart(s) == "" <==> PageState.Blank(s)
    ensures |TrimStart(s)| <= |s| && TrimStart(s) == s[|s| - |TrimStart(s)|..]
    ensures PageState.Blank(s[..|s| - |TrimStart(s)|])
  {
    if s != [] && PageState.IsWhitespace(s[0]) {
      TrimStartMeans(s[1..]);
      assert s == [s[0]] + s[1..];
      var n := |s| - |TrimStart(s)|;
      assert s[..n] == [s[0]] + s[1..][..n - 1];
    }
  }

  lemma {:induction false} TrimEndMeans(s: string)
    ensures TrimEnd(s) != "" ==> !PageState.IsWhitespace(TrimEnd(s)[|TrimEnd(s)| - 1])
    ensures TrimEnd(s) == "" <==> PageState.Blank(s)
    ensures TrimEnd(s) <= s && PageState.Blank(s[|TrimEnd(s)|..])
  {
    if s != [] && PageState.IsWhitespace(s[|s| - 1]) {
      TrimEndMeans(s[..|s| - 1]);
      assert s == s[..|s| - 1] + [s[|s| - 1]];
      var n := |TrimEnd(s)|;
      assert s[n..] == s[..|s| - 1][n..] + [s[|s| - 1]];
    }
  }

  // ---- Undoing ---------------------------------------------------------------------------

  lemma ForwardAfterBack(z: Zipper, fallback: Option<Entry>)
    requires z.Zipper? && z.back != []
    ensures Forward(Back(z), fallback) == z
  {
    var n := |z.back| - 1;
    assert z.back[..n] + [z.back[n]] == z.back;
    assert ([z.current] + z.forward)[0] == z.current && ([z.current] + z.forward)[1..] == z.forward;
  }

  lemma BackAfterForward(z: Zipper, fallback: Option<Entry>)
    requires z.Zipper? && z.forward != []
    ensures Back(Forward(z, fallback)) == z
  {
    assert (z.back + [z.current])[..|z.back|] == z.back && (z.back + [z.current])[|z.back|] == z.current;
    assert [z.forward[0]] + z.forward[1..] == z.forward;
  }

  lemma BackForwardUndo(z: Zipper, fallback: Option<Entry>)
    requires z.Zipper?
    ensures z.back != [] ==> Forward(Back(z), fallback) == z
    ensures z.forward != [] ==> Back(Forward(z, fallback)) == z
  {
    if z.back != [] {
      ForwardAfterBack(z, fallback);
    }
    if z.forward != [] {
      BackAfterForward(z, fallback);
    }
  }

  /** Inside the history, previous and next undo each other: history, index and
      song id come back, and so does the song exactly when it is still the one
      the history recorded. */
  lemma PrevNextUndo(p: Player, fallback: Option<Entry>)
    requires Coherent(p) && p.historyIndex.Some? && p.historyIndex.value > 0
    ensures var q := Reduced(Reduced(p, PlayPrev), PlayNext(fallback));
            && q.history == p.history && q.historyIndex == p.historyIndex && q.songId == p.songId
            && (q.currentSong == p.currentSong <==> p.currentSong == Some(p.history[p.historyIndex.value].song))
  {
  }

  lemma NextPrevUndo(p: Player, fallback: Option<Entry>)
    requires Coherent(p) && p.historyIndex.Some? && p.historyIndex.value + 1 < |p.history|
    ensures var q := Reduced(Reduced(p, PlayNext(fallback)), PlayPrev);
            && q.history == p.history && q.historyIndex == p.historyIndex && q.songId == p.songId
            && (q.currentSong == p.currentSong <==> p.currentSong == Some(p.history[p.historyIndex.value].song))
  {
  }

  /** Playing a new song discards the forward entries and nothing else. */
  lemma OpeningDiscardsForward(p: Player, song: Song, id: string)
    requires Coherent(p) && p.songId != Some(id)
    ensures var q := Reduced(p, PlaySong(song, id));
            var z := AsZipper(p);
            && Coherent(q)
            && q.history == (if z.Nothing? then [] else z.back + [z.current]) + [Entry(id, song)]
            && AsZipper(q).Zipper? && AsZipper(q).forward == []
  {
    StepRefines(p, PlaySong(song, id));
    if p.historyIndex.Some? {
      var i := p.historyIndex.value;
      assert p.history[..i + 1] == p.history[..i] + [p.history[i]];
    }
  }
}
