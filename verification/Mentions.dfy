/** The mention scanner (backend/app/core/mentions.py). Python's `re` engine is modelled by its own
    rules for this kind of pattern, atoms tried in order, greedy repetition, backtracking, leftmost
    match first, and a scan without backtracking is proved to find the same matches. */
module Mentions {
  import opened Common

  /** `\w`: any class of characters that leaves out the pattern's own punctuation. */
  ghost predicate IsWordClass(w: char -> bool) {
    !w('@') && !w('.') && !w('+') && !w('-')
  }

  datatype Atom = One(c: char) | Many(of: CharClass)

  /** `[\w.+-]`, `[\w-]` and `[\w.-]`. */
  datatype CharClass = Local | Domain | Tail

  predicate In(w: char -> bool, k: CharClass, c: char) {
    match k
    case Local => w(c) || c == '.' || c == '+' || c == '-'
    case Domain => w(c) || c == '-'
    case Tail => w(c) || c == '.' || c == '-'
  }

  /** The pattern's three character classes: `[\w.+-]`, `[\w-]` and `[\w.-]`. */
  lemma ClassesAre(w: char -> bool, c: char)
    ensures In(w, Local, c) <==> w(c) || c in ".+-"
    ensures In(w, Domain, c) <==> w(c) || c in "-"
    ensures In(w, Tail, c) <==> w(c) || c in ".-"
  {
  }

  /** The pattern `@([\w.+-]+@[\w-]+\.[\w.-]+)`. */
  const MENTION: seq<Atom> := [One('@'), Many(Local), One('@'), Many(Domain), One('.'), Many(Tail)]

  /** The end of the maximal run of class `k` from position `i`. */
  function RunEnd(w: char -> bool, k: CharClass, s: string, i: nat): (e: nat)
    requires i <= |s|
    ensures i <= e <= |s|
    ensures forall j :: i <= j < e ==> In(w, k, s[j])
    ensures e < |s| ==> !In(w, k, s[e])
    decreases |s| - i
  {
    if i < |s| && In(w, k, s[i]) then RunEnd(w, k, s, i + 1) else i
  }

  // ----- the engine -----

  /** Where a backtracking matcher can end when it matches `atoms` from `i`, in the order in which it
      finds out: a greedy `+` tries its longest stretch first. */
  function Ends(w: char -> bool, atoms: seq<Atom>, s: string, i: nat): seq<nat>
    requires i <= |s|
    decreases |atoms|, 0
  {
    if atoms == [] then [i]
    else match atoms[0]
      case One(c) => if i < |s| && s[i] == c then Ends(w, atoms[1..], s, i + 1) else []
      case Many(k) => Greedy(w, atoms, s, i, RunEnd(w, k, s, i))
  }

  /** The alternatives of a `+` that has matched up to `e` and may give characters back. */
  function Greedy(w: char -> bool, atoms: seq<Atom>, s: string, i: nat, e: nat): seq<nat>
    requires atoms != [] && i <= e <= |s|
    decreases |atoms|, 0, e - i
  {
    if e == i then [] else Ends(w, atoms[1..], s, e) + Greedy(w, atoms, s, i, e - 1)
  }

  /** What the engine reports for a match attempt at `i`: the first alternative that works out. */
  function EngineMatch(w: char -> bool, s: string, i: nat): Option<nat>
    requires i <= |s|
  {
    var ends := Ends(w, MENTION, s, i);
    if ends == [] then None else Some(ends[0])
  }

  // ----- the scan without backtracking -----

  /** Each `+` takes its maximal run once and for all. */
  function Match(w: char -> bool, s: string, i: nat): (r: Option<nat>)
    requires i <= |s|
    ensures r.Some? ==> i + 5 < r.value <= |s|
  {
    if i == |s| || s[i] != '@' then None
    else
      var a := RunEnd(w, Local, s, i + 1);
      if a == i + 1 || a == |s| || s[a] != '@' then None
      else
        var b := RunEnd(w, Domain, s, a + 1);
        if b == a + 1 || b == |s| || s[b] != '.' then None
        else
          var e := RunEnd(w, Tail, s, b + 1);
          if e == b + 1 then None else Some(e)
  }

  /** Giving back characters never helps a run that must be followed by a character outside its class. */
  lemma {:induction false} ShorterRunsFail(w: char -> bool, atoms: seq<Atom>, s: string, i: nat, e: nat)
    requires |atoms| > 1 && atoms[0].Many? && atoms[1].One? && !In(w, atoms[0].of, atoms[1].c)
    requires i <= e <= |s|
    requires e < RunEnd(w, atoms[0].of, s, i)
    ensures Greedy(w, atoms, s, i, e) == []
    decreases e - i
  {
    if e != i {
      ShorterRunsFail(w, atoms, s, i, e - 1);
    }
  }

  lemma RunThenChar(w: char -> bool, atoms: seq<Atom>, s: string, i: nat)
    requires |atoms| > 1 && atoms[0].Many? && atoms[1].One? && !In(w, atoms[0].of, atoms[1].c)
    requires i <= |s|
    ensures var e := RunEnd(w, atoms[0].of, s, i);
      Ends(w, atoms, s, i) ==
        if e == i || e == |s| || s[e] != atoms[1].c then [] else Ends(w, atoms[2..], s, e + 1)
  {
    var e := RunEnd(w, atoms[0].of, s, i);
    if e != i {
      ShorterRunsFail(w, atoms, s, i, e - 1);
      assert atoms[1..][1..] == atoms[2..];
      assert Ends(w, atoms, s, i) == Ends(w, atoms[1..], s, e) + [];
    }
  }

  lemma LastRun(w: char -> bool, atoms: seq<Atom>, s: string, i: nat)
    requires |atoms| == 1 && atoms[0].Many? && i <= |s|
    ensures var e := RunEnd(w, atoms[0].of, s, i);
      var ends := Ends(w, atoms, s, i);
      (e == i <==> ends == []) && (e != i ==> ends[0] == e)
  {
    var e := RunEnd(w, atoms[0].of, s, i);
    if e != i {
      assert atoms[1..] == [];
      assert Ends(w, [], s, e) == [e];
    }
  }

  ghost predicate IsMentionPattern(atoms: seq<Atom>) {
    && |atoms| == 6 && atoms[0] == One('@') && atoms[1] == Many(Local) && atoms[2] == One('@')
    && atoms[3] == Many(Domain) && atoms[4] == One('.') && atoms[5] == Many(Tail)
  }

  /** The first alternative of a list of ends is the match. */
  predicate Reports(ends: seq<nat>, m: Option<nat>) {
    m == if ends == [] then None else Some(ends[0])
  }

  lemma DomainReports(w: char -> bool, atoms: seq<Atom>, s: string, i: nat)
    requires IsWordClass(w) && i <= |s|
    requires |atoms| == 3 && atoms[0] == Many(Domain) && atoms[1] == One('.') && atoms[2] == Many(Tail)
    ensures var b := RunEnd(w, Domain, s, i);
      Reports(Ends(w, atoms, s, i),
              if b == i || b == |s| || s[b] != '.' || RunEnd(w, Tail, s, b + 1) == b + 1 then None
              else Some(RunEnd(w, Tail, s, b + 1)))
  {
    var b := RunEnd(w, Domain, s, i);
    RunThenChar(w, atoms, s, i);
    if b != i && b < |s| && s[b] == '.' {
      LastRun(w, atoms[2..], s, b + 1);
    }
  }

  lemma PatternReports(w: char -> bool, atoms: seq<Atom>, s: string, i: nat)
    requires IsWordClass(w) && IsMentionPattern(atoms) && i <= |s|
    ensures Reports(Ends(w, atoms, s, i), Match(w, s, i))
  {
    if i < |s| && s[i] == '@' {
      var a := RunEnd(w, Local, s, i + 1);
      var rest := atoms[1..];
      assert rest[0] == atoms[1] && rest[1] == atoms[2] && rest[2..] == atoms[3..];
      RunThenChar(w, rest, s, i + 1);
      if a != i + 1 && a < |s| && s[a] == '@' {
        DomainReports(w, atoms[3..], s, a + 1);
      }
    }
  }

  /** The scan without backtracking finds exactly what the backtracking engine reports. */
  lemma EngineNeverBacktracks(w: char -> bool, s: string, i: nat)
    requires IsWordClass(w) && i <= |s|
    ensures EngineMatch(w, s, i) == Match(w, s, i)
  {
    PatternReports(w, MENTION, s, i);
  }

  // ----- the scan over a whole text -----

  /** `re.finditer` by its definition: the leftmost match at or after `from`, as the engine reports it,
      then the same again from its end. Spans are (start, end) pairs. */
  ghost predicate IsFindIter(w: char -> bool, s: string, from: nat, spans: seq<(nat, nat)>)
    requires from <= |s|
    decreases |spans|
  {
    if spans == [] then forall j :: from <= j <= |s| ==> EngineMatch(w, s, j) == None
    else
      var (i, e) := spans[0];
      from <= i < e <= |s| && EngineMatch(w, s, i) == Some(e) &&
      (forall j :: from <= j < i ==> EngineMatch(w, s, j) == None) &&
      IsFindIter(w, s, e, spans[1..])
  }

  /** There is only one such list of spans. */
  lemma {:induction false} FindIterUnique(w: char -> bool, s: string, from: nat,
                                          a: seq<(nat, nat)>, b: seq<(nat, nat)>)
    requires from <= |s| && IsFindIter(w, s, from, a) && IsFindIter(w, s, from, b)
    ensures a == b
    decreases |a|
  {
    if a != [] {
      assert EngineMatch(w, s, a[0].0) == Some(a[0].1);
      assert b != [];
      assert EngineMatch(w, s, b[0].0) == Some(b[0].1);
      assert a[0] == b[0];
      FindIterUnique(w, s, a[0].1, a[1..], b[1..]);
    }
  }

  /** A failed attempt at an '@' resumes at the next position, a successful one at the match's end. */
  function Scan(w: char -> bool, s: string, from: nat): (spans: seq<(nat, nat)>)
    requires from <= |s|
    ensures forall k :: 0 <= k < |spans| ==> from <= spans[k].0 < spans[k].1 <= |s|
    decreases |s| - from
  {
    if from == |s| then []
    else
      var m := Match(w, s, from);
      if m.Some? then [(from, m.value)] + Scan(w, s, m.value) else Scan(w, s, from + 1)
  }

  lemma FindIterTakes(w: char -> bool, s: string, from: nat, e: nat, rest: seq<(nat, nat)>)
    requires from < e <= |s| && EngineMatch(w, s, from) == Some(e) && IsFindIter(w, s, e, rest)
    ensures IsFindIter(w, s, from, [(from, e)] + rest)
  {
    assert ([(from, e)] + rest)[1..] == rest;
  }

  lemma FindIterSkips(w: char -> bool, s: string, from: nat, spans: seq<(nat, nat)>)
    requires from < |s| && EngineMatch(w, s, from) == None && IsFindIter(w, s, from + 1, spans)
    ensures IsFindIter(w, s, from, spans)
  {
  }

  lemma {:induction false} ScanIsFindIter(w: char -> bool, s: string, from: nat)
    requires IsWordClass(w) && from <= |s|
    ensures IsFindIter(w, s, from, Scan(w, s, from))
    decreases |s| - from
  {
    EngineNeverBacktracks(w, s, from);
    if from < |s| {
      var m := Match(w, s, from);
      if m.Some? {
        ScanIsFindIter(w, s, m.value);
        FindIterTakes(w, s, from, m.value, Scan(w, s, m.value));
      } else {
        ScanIsFindIter(w, s, from + 1);
        FindIterSkips(w, s, from, Scan(w, s, from + 1));
      }
    }
  }

  /** `match.group(1)`: the match without its leading '@'. */
  function Emails(s: string, spans: seq<(nat, nat)>): (r: seq<string>)
    requires forall k :: 0 <= k < |spans| ==> spans[k].0 < spans[k].1 <= |s|
    ensures |r| == |spans|
    ensures forall k :: 0 <= k < |r| ==> r[k] == s[spans[k].0 + 1..spans[k].1]
  {
    seq(|spans|, k requires 0 <= k < |spans| => s[spans[k].0 + 1..spans[k].1])
  }

  /** The keys of a dict filled by `setdefault`: each value once, in first-seen order. */
  function FirstSeen(xs: seq<string>): (r: seq<string>)
    ensures forall x :: x in r <==> x in xs
    decreases |xs|
  {
    if xs == [] then []
    else
      var init, last := FirstSeen(xs[..|xs| - 1]), xs[|xs| - 1];
      assert xs == xs[..|xs| - 1] + [last];
      if last in init then init else init + [last]
  }

  lemma {:induction false} FirstSeenDistinct(xs: seq<string>)
    ensures Distinct(FirstSeen(xs)) && |FirstSeen(xs)| <= |xs|
    decreases |xs|
  {
    if xs != [] {
      FirstSeenDistinct(xs[..|xs| - 1]);
    }
  }

  /** The position at which a value first occurs. */
  function FirstIndex(xs: seq<string>, x: string): (k: nat)
    requires x in xs
    ensures k < |xs| && xs[k] == x && x !in xs[..k]
  {
    if xs[0] == x then 0
    else
      assert x in xs[1..] by { var j :| 0 <= j < |xs| && xs[j] == x; assert xs[1..][j - 1] == x; }
      var k := FirstIndex(xs[1..], x);
      assert xs[..k + 1] == [xs[0]] + xs[1..][..k];
      k + 1
  }

  /** The list keeps the order of first occurrences. */
  lemma {:induction false} FirstSeenOrder(xs: seq<string>, i: nat, j: nat)
    requires i < j < |FirstSeen(xs)|
    ensures FirstSeen(xs)[i] in xs && FirstSeen(xs)[j] in xs
    ensures FirstIndex(xs, FirstSeen(xs)[i]) < FirstIndex(xs, FirstSeen(xs)[j])
    decreases |xs|
  {
    var init, last := xs[..|xs| - 1], xs[|xs| - 1];
    var r, a, b := FirstSeen(xs), FirstSeen(xs)[i], FirstSeen(xs)[j];
    assert xs == init + [last];
    assert a in r && b in r && a in FirstSeen(init) && a in init;
    FirstIndexInPrefix(init, last, a);
    if j < |FirstSeen(init)| {
      assert b in FirstSeen(init);
      FirstIndexInPrefix(init, last, b);
      FirstSeenOrder(init, i, j);
    } else {
      assert b == last && last !in FirstSeen(init);
      assert forall k :: 0 <= k < |init| ==> xs[k] != b;
    }
  }

  lemma FirstIndexInPrefix(init: seq<string>, last: string, x: string)
    requires x in init
    ensures FirstIndex(init + [last], x) == FirstIndex(init, x)
  {
    var m := FirstIndex(init, x);
    assert (init + [last])[m] == x && (init + [last])[..m] == init[..m];
    FirstIndexUnique(init + [last], x, m);
  }

  lemma FirstIndexUnique(xs: seq<string>, x: string, k: nat)
    requires k < |xs| && xs[k] == x && x !in xs[..k]
    ensures FirstIndex(xs, x) == k
  {
  }

  /** extract_mentioned_emails: the emails of all matches, each once, in first-seen order. */
  method ExtractMentionedEmails(w: char -> bool, body: string) returns (emails: seq<string>)
    requires IsWordClass(w)
    ensures emails == FirstSeen(Emails(body, Scan(w, body, 0)))
    ensures Distinct(emails)
    ensures IsFindIter(w, body, 0, Scan(w, body, 0))
  {
    ScanIsFindIter(w, body, 0);
    var matches := Emails(body, Scan(w, body, 0));
    emails := [];
    var k := 0;
    while k < |matches|
      invariant 0 <= k <= |matches|
      invariant emails == FirstSeen(matches[..k])
    {
      assert matches[..k + 1][..k] == matches[..k];
      if matches[k] !in emails {
        emails := emails + [matches[k]];
      }
      k := k + 1;
    }
    assert matches[..k] == matches;
    FirstSeenDistinct(matches);
  }

  // ----- rendering and scanning again -----

  /** An address the pattern can take in whole: local part, domain, and what follows the first dot. */
  datatype Address = Address(name: string, domain: string, tail: string)

  ghost predicate AllIn(w: char -> bool, k: CharClass, s: string) {
    s != "" && forall j :: 0 <= j < |s| ==> In(w, k, s[j])
  }

  ghost predicate IsAddress(w: char -> bool, a: Address) {
    AllIn(w, Local, a.name) && AllIn(w, Domain, a.domain) && AllIn(w, Tail, a.tail)
  }

  function Email(a: Address): string {
    a.name + "@" + a.domain + "." + a.tail
  }

  /** Text that ends a mention and starts none. */
  ghost predicate IsSeparator(w: char -> bool, sep: string) {
    sep != "" && !In(w, Tail, sep[0]) && '@' !in sep
  }

  datatype Mention = Mention(address: Address, separator: string)

  function Render(ms: seq<Mention>): string {
    if ms == [] then "" else Written(ms[0]) + Render(ms[1..])
  }

  function Written(m: Mention): string {
    "@" + Email(m.address) + m.separator
  }

  function Addressed(ms: seq<Mention>): (r: seq<string>)
    ensures |r| == |ms| && forall k :: 0 <= k < |ms| ==> r[k] == Email(ms[k].address)
  {
    seq(|ms|, k requires 0 <= k < |ms| => Email(ms[k].address))
  }

  /** A maximal run is the stretch of its class up to the first character outside it. */
  lemma {:induction false} RunEndIs(w: char -> bool, k: CharClass, s: string, i: nat, e: nat)
    requires i <= e <= |s| && (forall j :: i <= j < e ==> In(w, k, s[j]))
    requires e < |s| ==> !In(w, k, s[e])
    ensures RunEnd(w, k, s, i) == e
    decreases e - i
  {
    if i < e {
      RunEndIs(w, k, s, i + 1, e);
    }
  }

  lemma EmailParts(a: Address)
    ensures var e := Email(a);
      var dot := |a.name| + 1 + |a.domain|;
      && |e| == dot + 1 + |a.tail| && e[|a.name|] == '@' && e[dot] == '.'
      && (forall j :: 0 <= j < |a.name| ==> e[j] == a.name[j])
      && (forall j :: |a.name| < j < dot ==> e[j] == a.domain[j - |a.name| - 1])
      && (forall j :: dot < j < |e| ==> e[j] == a.tail[j - dot - 1])
  {
  }

  /** An address standing in a text between an '@' and the end of its tail is matched in whole. */
  lemma AddressMatches(w: char -> bool, s: string, i: nat, a: Address)
    requires IsWordClass(w) && IsAddress(w, a)
    requires i + 1 + |Email(a)| <= |s| && s[i] == '@' && s[i + 1..i + 1 + |Email(a)|] == Email(a)
    requires i + 1 + |Email(a)| < |s| ==> !In(w, Tail, s[i + 1 + |Email(a)|])
    ensures Match(w, s, i) == Some(i + 1 + |Email(a)|)
  {
    var at := i + 1 + |a.name|;
    var dot := at + 1 + |a.domain|;
    var end := i + 1 + |Email(a)|;
    var e := s[i + 1..end];
    EmailParts(a);
    assert forall j :: i + 1 <= j < end ==> s[j] == e[j - i - 1];
    RunEndIs(w, Local, s, i + 1, at);
    RunEndIs(w, Domain, s, at + 1, dot);
    RunEndIs(w, Tail, s, dot + 1, end);
  }

  lemma {:induction false} ScanSkips(w: char -> bool, s: string, from: nat, until: nat)
    requires from <= until <= |s| && '@' !in s[from..until]
    ensures Scan(w, s, from) == Scan(w, s, until)
    decreases until - from
  {
    if from < until {
      assert s[from] == s[from..until][0];
      assert s[from + 1..until] == s[from..until][1..];
      ScanSkips(w, s, from + 1, until);
    }
  }

  lemma WrittenParts(s: string, i: nat, m: Mention)
    requires i + |Written(m)| <= |s| && s[i..i + |Written(m)|] == Written(m)
    ensures var end := i + 1 + |Email(m.address)|;
      && i + |Written(m)| == end + |m.separator|
      && s[i] == '@' && s[i + 1..end] == Email(m.address) && s[end..i + |Written(m)|] == m.separator
  {
    var end := i + 1 + |Email(m.address)|;
    var next := i + |Written(m)|;
    assert s[i] == s[i..next][0];
    assert s[i + 1..end] == s[i..next][1..end - i];
    assert s[end..next] == s[i..next][end - i..];
  }

  /** One written mention: the scan takes it in whole and goes on behind its separator. */
  lemma ScanTakesMention(w: char -> bool, s: string, i: nat, m: Mention)
    requires IsWordClass(w) && IsAddress(w, m.address)
    requires i + |Written(m)| <= |s| && s[i..i + |Written(m)|] == Written(m)
    requires IsSeparator(w, m.separator) || (m.separator == "" && i + |Written(m)| == |s|)
    ensures Emails(s, Scan(w, s, i)) == [Email(m.address)] + Emails(s, Scan(w, s, i + |Written(m)|))
  {
    var end := i + 1 + |Email(m.address)|;
    WrittenParts(s, i, m);
    assert m.separator != "" ==> s[end] == s[end..i + |Written(m)|][0];
    AddressMatches(w, s, i, m.address);
    ScanSkips(w, s, end, i + |Written(m)|);
    EmailsOfFirst(s, (i, end), Scan(w, s, end));
  }

  /** Nothing need follow the last mention of a text. */
  ghost predicate Writable(w: char -> bool, ms: seq<Mention>) {
    forall k :: 0 <= k < |ms| ==>
      IsAddress(w, ms[k].address) && (IsSeparator(w, ms[k].separator) || (k == |ms| - 1 && ms[k].separator == ""))
  }

  lemma {:induction false} ScanRendered(w: char -> bool, s: string, i: nat, ms: seq<Mention>)
    requires IsWordClass(w) && i <= |s| && s[i..] == Render(ms) && Writable(w, ms)
    ensures Emails(s, Scan(w, s, i)) == Addressed(ms)
    decreases |ms|
  {
    if ms != [] {
      FirstIsWritten(w, s, i, ms);
      ScanTakesMention(w, s, i, ms[0]);
      ScanRendered(w, s, i + |Written(ms[0])|, ms[1..]);
      AddressedFirst(ms);
    }
  }

  lemma AddressedFirst(ms: seq<Mention>)
    requires ms != []
    ensures Addressed(ms) == [Email(ms[0].address)] + Addressed(ms[1..])
  {
  }

  lemma RenderedParts(s: string, i: nat, ms: seq<Mention>)
    requires i <= |s| && s[i..] == Render(ms) && ms != []
    ensures var next := i + |Written(ms[0])|;
      next <= |s| && s[i..next] == Written(ms[0]) && s[next..] == Render(ms[1..]) &&
      (ms[1..] == [] ==> next == |s|)
  {
    var text, next := Written(ms[0]), i + |Written(ms[0])|;
    assert s[i..] == text + Render(ms[1..]);
    assert s[i..next] == s[i..][..|text|];
    assert s[next..] == s[i..][|text|..];
  }

  lemma WritableParts(w: char -> bool, ms: seq<Mention>)
    requires ms != [] && Writable(w, ms)
    ensures IsAddress(w, ms[0].address) && Writable(w, ms[1..])
    ensures IsSeparator(w, ms[0].separator) || (ms[0].separator == "" && ms[1..] == [])
  {
    assert forall k :: 0 <= k < |ms| - 1 ==> ms[1..][k] == ms[k + 1];
  }

  lemma FirstIsWritten(w: char -> bool, s: string, i: nat, ms: seq<Mention>)
    requires i <= |s| && s[i..] == Render(ms) && Writable(w, ms) && ms != []
    ensures var m, next := ms[0], i + |Written(ms[0])|;
      && next <= |s| && s[i..next] == Written(m) && s[next..] == Render(ms[1..])
      && IsAddress(w, m.address) && (IsSeparator(w, m.separator) || (m.separator == "" && next == |s|))
      && Writable(w, ms[1..])
  {
    RenderedParts(s, i, ms);
    WritableParts(w, ms);
  }

  lemma EmailsOfFirst(s: string, first: (nat, nat), rest: seq<(nat, nat)>)
    requires first.0 < first.1 <= |s|
    requires forall k :: 0 <= k < |rest| ==> rest[k].0 < rest[k].1 <= |s|
    ensures Emails(s, [first] + rest) == [s[first.0 + 1..first.1]] + Emails(s, rest)
  {
  }

  /** Writing addresses out as mentions, after any text without an '@' and up to the very end of the
      body, and scanning it returns them, each once, in order. */
  lemma MentionsRoundTrip(w: char -> bool, lead: string, ms: seq<Mention>)
    requires IsWordClass(w) && Writable(w, ms) && '@' !in lead
    ensures var body := lead + Render(ms);
      FirstSeen(Emails(body, Scan(w, body, 0))) == FirstSeen(Addressed(ms))
  {
    var body := lead + Render(ms);
    assert body[0..|lead|] == lead && body[|lead|..] == Render(ms);
    ScanSkips(w, body, 0, |lead|);
    ScanRendered(w, body, |lead|, ms);
  }
}
