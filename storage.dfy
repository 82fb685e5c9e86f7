/** The server-side pieces the transfers rely on that are plain logic: the
    file-name sanitiser and save()'s choice between truncating and appending. */
module Storage {
  import opened ChunkPlanner

  /** No two dots next to each other. */
  predicate NoDoubleDot(s: string) {
    forall i :: 0 <= i < |s| - 1 ==> !(s[i] == '.' && s[i + 1] == '.')
  }

  /** The characters other than dots, in order. */
  function NonDots(s: string): string {
    if s == [] then [] else (if s[0] == '.' then [] else [s[0]]) + NonDots(s[1..])
  }

  /** `fileName.replace(/\//g, "")`: every slash removed, every other
      character kept in order. */
  function RemoveSlashes(s: string): (r: string)
    ensures '/' !in r
    ensures forall c :: c in r ==> c in s
    ensures '/' !in s ==> r == s
  {
    if s == [] then []
    else (if s[0] == '/' then [] else [s[0]]) + RemoveSlashes(s[1..])
  }

  /** `.replace(/\.\.+/g, ".")`: each run of two or more dots becomes one dot.
      Dropping a dot that is followed by another dot does the same. */
  function CollapseDots(s: string): (r: string)
    ensures NoDoubleDot(r)
    ensures forall c :: c in r ==> c in s
    ensures |s| > 0 ==> |r| > 0 && r[0] == s[0]
    ensures NoDoubleDot(s) ==> r == s
    ensures NonDots(r) == NonDots(s)
  {
    if |s| <= 1 then s
    else if s[0] == '.' && s[1] == '.' then CollapseDots(s[1..])
    else
      var rest := CollapseDots(s[1..]);
      assert NoDoubleDot(s) ==> NoDoubleDot(s[1..]);
      assert NonDots([s[0]] + rest) == NonDots([s[0]]) + NonDots(rest) by {
        assert ([s[0]] + rest)[1..] == rest;
      }
      assert NonDots(s) == NonDots([s[0]]) + NonDots(s[1..]) by {
        assert s == [s[0]] + s[1..];
      }
      [s[0]] + rest
  }

  /** Removing slashes works piece by piece: it distributes over
      concatenation. */
  lemma {:induction false} RemoveSlashesDistributes(a: string, b: string)
    ensures RemoveSlashes(a + b) == RemoveSlashes(a) + RemoveSlashes(b)
    decreases |a|
  {
    if a == [] {
      assert a + b == b;
    } else {
      var h := if a[0] == '/' then [] else [a[0]];
      calc {
        RemoveSlashes(a + b);
        { assert (a + b)[0] == a[0] && (a + b)[1..] == a[1..] + b; }
        h + RemoveSlashes(a[1..] + b);
        { RemoveSlashesDistributes(a[1..], b); }
        h + (RemoveSlashes(a[1..]) + RemoveSlashes(b));
        RemoveSlashes(a) + RemoveSlashes(b);
      }
    }
  }

  /** On a single character: a slash is dropped, anything else is kept. */
  lemma RemoveSlashesOne(c: char)
    ensures RemoveSlashes([c]) == if c == '/' then [] else [c]
  {
    assert [c][1..] == [];
  }

  /** The dot rule read index by index: a character is dropped exactly when
      it is a dot and the character before it is a dot too. `afterDot` says
      whether the character before s[0] was a dot. */
  function DropDotsAfterDot(s: string, afterDot: bool): string
    decreases |s|
  {
    if s == [] then []
    else (if afterDot && s[0] == '.' then [] else [s[0]]) + DropDotsAfterDot(s[1..], s[0] == '.')
  }

  /** CollapseDots drops the first dot of each adjacent pair and the index-wise
      rule drops the second; both keep one dot per run. */
  lemma {:induction false} CollapseDotsAgrees(s: string, afterDot: bool)
    ensures DropDotsAfterDot(s, afterDot) ==
      if afterDot && |s| > 0 && s[0] == '.' then CollapseDots(s)[1..] else CollapseDots(s)
    decreases |s|
  {
    if |s| >= 2 {
      CollapseDotsAgrees(s[1..], s[0] == '.');
      if s[0] == '.' && s[1] == '.' && !afterDot {
        var c := CollapseDots(s[1..]);
        assert c == [c[0]] + c[1..];
      }
    }
  }

  /** CollapseDots is the index-wise filter: every character is kept, in
      order, except a dot that follows a dot. */
  lemma CollapseDotsIsFilter(s: string)
    ensures CollapseDots(s) == DropDotsAfterDot(s, false)
  {
    CollapseDotsAgrees(s, false);
  }

  /** sanitize(): no slash and no run of dots is left. */
  function Sanitize(fileName: string): (r: string)
    ensures '/' !in r && NoDoubleDot(r)
    ensures forall c :: c in r ==> c in fileName
  {
    CollapseDots(RemoveSlashes(fileName))
  }

  /** Sanitising is idempotent, and the names it leaves alone are exactly the
      ones with no slash and no run of dots. */
  lemma SanitizeIdempotent(s: string)
    ensures Sanitize(Sanitize(s)) == Sanitize(s)
    ensures Sanitize(s) == s <==> '/' !in s && NoDoubleDot(s)
  {
    var t := Sanitize(s);
    assert RemoveSlashes(t) == t;
  }

  /** Sanitising keeps every character other than '/' and '.', in order. */
  lemma SanitizeKeepsNonDots(s: string)
    ensures NonDots(Sanitize(s)) == NonDots(RemoveSlashes(s))
  {
  }

  /** The first of two adjacent dots is dropped. */
  lemma CollapseDoubleDot(t: string)
    ensures CollapseDots(['.', '.'] + t) == CollapseDots(['.'] + t)
  {
    assert (['.', '.'] + t)[1..] == ['.'] + t;
  }

  /** A character that does not start a pair of dots is kept. */
  lemma CollapseKeeps(c: char, t: string)
    requires c != '.' || t == [] || t[0] != '.'
    ensures CollapseDots([c] + t) == [c] + CollapseDots(t)
  {
    if t != [] {
      assert ([c] + t)[1..] == t;
    }
  }

  /** A doubled dot inside a name becomes one dot. */
  lemma SanitizeInnerDots()
    ensures Sanitize("a..b") == "a.b"
  {
    var b := ['b'];
    var s := ['a'] + (['.', '.'] + b);
    assert "a..b" == s;
    assert RemoveSlashes(s) == s;
    assert CollapseDots(s) == ['a'] + CollapseDots(['.', '.'] + b) by {
      CollapseKeeps('a', ['.', '.'] + b);
    }
    assert CollapseDots(['.', '.'] + b) == ['.'] + b by {
      CollapseDoubleDot(b);
      CollapseKeeps('.', b);
    }
    assert "a.b" == ['a'] + (['.'] + b);
  }

  /** A slash between two pieces disappears and the pieces stay. */
  lemma DropSlash(x: string, y: string)
    ensures RemoveSlashes(x + ['/'] + y) == RemoveSlashes(x) + RemoveSlashes(y)
  {
    calc {
      RemoveSlashes(x + ['/'] + y);
      { assert x + ['/'] + y == x + (['/'] + y); }
      RemoveSlashes(x + (['/'] + y));
      { RemoveSlashesDistributes(x, ['/'] + y); }
      RemoveSlashes(x) + RemoveSlashes(['/'] + y);
      { RemoveSlashesDistributes(['/'], y); RemoveSlashesOne('/'); }
      RemoveSlashes(x) + ([] + RemoveSlashes(y));
      { assert [] + RemoveSlashes(y) == RemoveSlashes(y); }
      RemoveSlashes(x) + RemoveSlashes(y);
    }
  }

  /** A run of four dots before a dot-free name collapses to one. */
  lemma CollapseFourDots(t: string)
    requires t != [] && '.' !in t
    ensures CollapseDots(['.', '.'] + (['.', '.'] + t)) == ['.'] + t
  {
    var three := ['.'] + (['.', '.'] + t);
    var two := ['.', '.'] + t;
    assert CollapseDots(['.', '.'] + two) == CollapseDots(three) by {
      CollapseDoubleDot(two);
    }
    assert CollapseDots(three) == CollapseDots(['.'] + two) by {
      assert three == ['.', '.'] + (['.'] + t);
      CollapseDoubleDot(['.'] + t);
      assert ['.'] + (['.'] + t) == two;
    }
    assert CollapseDots(['.'] + two) == CollapseDots(['.'] + t) by {
      assert ['.'] + two == ['.', '.'] + (['.'] + t);
      CollapseDoubleDot(['.'] + t);
    }
    assert CollapseDots(['.'] + t) == ['.'] + t by {
      assert t[0] != '.';
      CollapseKeeps('.', t);
      assert NoDoubleDot(t);
    }
  }

  /** The slashes of a climbing path go and its pieces stay, in order. */
  lemma RemoveSlashesClimb(e: string, p: string)
    requires '/' !in e + p
    ensures RemoveSlashes(['.', '.'] + ['/'] + (['.', '.'] + ['/'] + (e + ['/'] + p)))
         == ['.', '.'] + (['.', '.'] + (e + p))
  {
    var dd := ['.', '.'];
    var tail := e + ['/'] + p;
    assert RemoveSlashes(dd) == dd;
    assert RemoveSlashes(tail) == e + p by {
      DropSlash(e, p);
      assert '/' !in e && '/' !in p;
    }
    assert RemoveSlashes(dd + ['/'] + tail) == dd + (e + p) by {
      DropSlash(dd, tail);
    }
    assert RemoveSlashes(dd + ['/'] + (dd + ['/'] + tail)) == dd + (dd + (e + p)) by {
      DropSlash(dd, dd + ['/'] + tail);
    }
  }

  /** A path that climbs two directories up and down again into `e/p` is
      flattened into one name: a single dot followed by `e` and `p`. */
  lemma SanitizeFlattensClimb(e: string, p: string)
    requires e != [] && '/' !in e + p && '.' !in e + p
    ensures Sanitize("../../" + e + "/" + p) == "." + e + p
  {
    assert "../../" + e + "/" + p == ['.', '.'] + ['/'] + (['.', '.'] + ['/'] + (e + ['/'] + p));
    RemoveSlashesClimb(e, p);
    CollapseFourDots(e + p);
    assert "." + e + p == ['.'] + (e + p);
  }

  /** The mode save() opens the file in. */
  datatype WriteMode = Truncate | Append

  /** `this.start == 0 ? 'w' : 'a'`. */
  function ModeFor(start: nat): WriteMode {
    if start == 0 then Truncate else Append
  }

  /** What the stored file holds after save() writes `payload` for a chunk
      that starts at `start`: a file opened with 'w' is emptied first; one
      opened with 'a' is written at its end, as Linux does whatever position
      is passed; this matches writing at `start` when the file holds exactly
      `start` items. */
  function Saved<T>(file: seq<T>, start: nat, payload: seq<T>): seq<T> {
    match ModeFor(start)
    case Truncate => payload
    case Append => file + payload
  }

  /** Saving the planned chunks of a buffer one after the other, whatever the
      file held before, leaves the file holding the buffer: the first chunk
      truncates and every later one appends. */
  lemma {:induction false} SavingPlannedChunksRebuilds<T>(d: seq<T>, chunk: nat, before: seq<T>)
    requires chunk > 0 && |d| > 0
    ensures var ws := Plan(0, |d|, chunk);
      && ModeFor(ws[0].start) == Truncate
      && (forall j :: 0 < j < |ws| ==> ModeFor(ws[j].start) == Append)
      && (forall j :: 0 <= j < |ws| ==> ws[j].start <= ws[j].end <= |d|)
      && SaveAll(before, d, ws) == d
  {
    var ws := Plan(0, |d|, chunk);
    LaterChunksAppend(|d|, chunk);
    PlanSplits(d, 0, chunk);
    var first := d[ws[0].start..ws[0].end];
    var later := ws[1..];
    assert forall j :: 0 <= j < |later| ==> later[j] == ws[j + 1];
    SaveAllAppends(first, d, later);
    assert ws == [ws[0]] + later;
  }

  /** Only the first planned window starts at offset 0. */
  lemma LaterChunksAppend(size: nat, chunk: nat)
    requires chunk > 0 && size > 0
    ensures var ws := Plan(0, size, chunk);
      && |ws| > 0 && ws[0].start == 0
      && (forall j :: 0 < j < |ws| ==> ws[j].start > 0)
  {
    var ws := Plan(0, size, chunk);
    PlanShape(0, size, chunk);
    forall j | 0 < j < |ws| ensures ws[j].start > 0 {
      assert ws[j - 1].end == ws[j].start;
    }
  }

  /** save() applied to each window's slice of `d`, in order. */
  function SaveAll<T>(file: seq<T>, d: seq<T>, ws: seq<Window>): seq<T>
    requires forall j :: 0 <= j < |ws| ==> ws[j].start <= ws[j].end <= |d|
    decreases |ws|
  {
    if ws == [] then file
    else SaveAll(Saved(file, ws[0].start, d[ws[0].start..ws[0].end]), d, ws[1..])
  }

  lemma {:induction false} SaveAllAppends<T>(file: seq<T>, d: seq<T>, ws: seq<Window>)
    requires forall j :: 0 <= j < |ws| ==> 0 < ws[j].start <= ws[j].end <= |d|
    ensures SaveAll(file, d, ws) == file + Pieces(d, ws)
    decreases |ws|
  {
    if ws != [] {
      SaveAllAppends(file + d[ws[0].start..ws[0].end], d, ws[1..]);
    }
  }
}
