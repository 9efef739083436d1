/**
 * String helpers of pkg/util.go: cursor splitting, nil-string defaulting,
 * truncation with an ellipsis and the registrable domain of an email address.
 */
module Util {
  import opened Wrappers
  import opened GoStrings

  /**
   * Splits a cursor "<key>_<id>" on "_" and returns the first two pieces.
   * The source indexes the second piece unconditionally, so a cursor without
   * "_" is outside its domain.
   */
  function GetCursorData(cursor: string): (r: (string, string))
    requires '_' in cursor
    ensures '_' !in r.0 && '_' !in r.1
    ensures |r.0| + 1 + |r.1| <= |cursor|
  {
    ContainsChar(cursor, '_');
    SplitMany(cursor, "_");
    var parts := Split(cursor, "_");
    CursorPieces(cursor);
    (parts[0], parts[1])
  }

  /**
   * Where GetCursorData's pieces sit: the key is the text before the first
   * "_", the id runs from there to the next "_" or the end.
   */
  lemma {:induction false} GetCursorDataPositions(cursor: string)
    requires '_' in cursor
    ensures var (k, t) := GetCursorData(cursor);
            cursor[..|k|] == k && cursor[|k|] == '_' &&
            cursor[|k| + 1..|k| + 1 + |t|] == t &&
            (|k| + 1 + |t| == |cursor| || cursor[|k| + 1 + |t|] == '_')
  {
    CursorPieces(cursor);
  }

  /** The positional facts behind GetCursorData's contract. */
  lemma {:induction false} CursorPieces(cursor: string)
    requires '_' in cursor
    ensures |Split(cursor, "_")| >= 2
    ensures var parts := Split(cursor, "_"); var k, t := parts[0], parts[1];
            '_' !in k && '_' !in t && |k| + 1 + |t| <= |cursor| &&
            cursor[..|k|] == k && cursor[|k|] == '_' &&
            cursor[|k| + 1..|k| + 1 + |t|] == t &&
            (|k| + 1 + |t| == |cursor| || cursor[|k| + 1 + |t|] == '_')
  {
    ContainsChar(cursor, '_');
    FirstPiece(cursor, "_");
    SecondPiece(cursor, "_");
    var parts := Split(cursor, "_");
    var i := Index(cursor, "_").value;
    SplitAtFirst(cursor, "_", i);
    assert parts[0] == cursor[..i];
    ContainsChar(parts[0], '_');
    ContainsChar(parts[1], '_');
    assert cursor[i..i + 1] == "_";
    var e := |parts[0]| + 1 + |parts[1]|;
    if e < |cursor| {
      assert cursor[e..e + 1] == "_";
    }
  }

  /** The cursor built from a key and an id, neither containing "_", splits back into them. */
  lemma {:induction false} CursorRoundTrip(key: string, id: string)
    requires '_' !in key && '_' !in id
    ensures '_' in key + "_" + id
    ensures GetCursorData(key + "_" + id) == (key, id)
  {
    var cursor := key + "_" + id;
    assert cursor[|key|] == '_';
    SplitCons(key, '_', id);
    ContainsChar(id, '_');
    SplitFree(id, "_");
    assert Split(cursor, "_") == [key, id];
  }

  /** `NullStrToStr`: a nil pointer reads as the empty string. */
  function NullStrToStr(s: Option<string>): (r: string)
    ensures s.None? ==> r == ""
    ensures s.Some? ==> r == s.value
  {
    match s
    case None => ""
    case Some(v) => v
  }

  /**
   * Keeps at most `maxLength` runes, marking a cut with "...". A negative
   * `maxLength` always makes the source slice out of bounds.
   */
  function TruncateWithEllipsis(s: string, maxLength: int): (r: string)
    requires maxLength >= 0
    ensures |s| <= maxLength ==> r == s
    ensures |s| > maxLength ==> |r| == maxLength + 3 && r[..maxLength] == s[..maxLength] && r[maxLength..] == "..."
    ensures |r| <= maxLength + 3
  {
    if |s| > maxLength then s[..maxLength] + "..." else s
  }

  /** The pieces of an address around "@": one more than its number of "@". */
  function EmailParts(email: string): (parts: seq<string>)
    ensures |parts| == CountChar(email, '@') + 1
  {
    SplitCount(email, '@');
    Split(email, "@")
  }

  /** The dot-separated labels of the part after "@". */
  function DomainLabels(email: string): seq<string>
    requires CountChar(email, '@') == 1
  {
    Split(EmailParts(email)[1], ".")
  }

  /**
   * `ExtractDomainFromEmail`: the registrable domain. It keeps the last three
   * labels when there are more than two and the second-to-last is at most
   * three bytes long ("ui.ac.id"), and the last two otherwise ("gmail.com").
   */
  function ExtractDomainFromEmail(email: string): (r: Result<string, string>)
    ensures r.Err? <==> CountChar(email, '@') != 1 || CountChar(EmailParts(email)[1], '.') == 0
    ensures r.Err? ==> r.error == (if CountChar(email, '@') != 1 then "invalid email address: " else "invalid domain in email: ") + email
    ensures r.Ok? ==> |r.value| <= |email| && email[|email| - |r.value|..] == r.value
    ensures r.Ok? ==> var labels := DomainLabels(email); var n := |labels|;
              CountChar(r.value, '.') == (if n > 2 && ByteLen(labels[n - 2]) <= 3 then 2 else 1)
  {
    var parts := EmailParts(email);
    if |parts| != 2 then Err("invalid email address: " + email)
    else
      var domain := parts[1];
      var labels := Split(domain, ".");
      SplitCount(domain, '.');
      if |labels| < 2 then Err("invalid domain in email: " + email)
      else
        var n := |labels|;
        var k := if n > 2 && ByteLen(labels[n - 2]) <= 3 then 3 else 2;
        var main := Join(labels[n - k..], ".");
        DomainFacts(email, n - k);
        Ok(main)
  }

  lemma {:induction false} DomainFacts(email: string, j: nat)
    requires |Split(email, "@")| == 2
    requires j < |Split(Split(email, "@")[1], ".")|
    ensures var labels := Split(Split(email, "@")[1], "."); var main := Join(labels[j..], ".");
            |main| <= |email| && email[|email| - |main|..] == main &&
            CountChar(main, '.') == |labels| - j - 1
  {
    var parts := Split(email, "@");
    var domain := parts[1];
    var labels := Split(domain, ".");
    var main := Join(labels[j..], ".");
    assert |main| <= |domain| && domain[|domain| - |main|..] == main by {
      JoinSplit(domain, ".");
      JoinTail(labels, j, ".");
    }
    assert email == parts[0] + "@" + domain by {
      JoinSplit(email, "@");
      assert parts[1..] == [domain];
    }
    assert CountChar(main, '.') == |labels| - j - 1 by {
      SplitPiecesFree(domain, ".");
      forall k | 0 <= k < |labels[j..]|
        ensures '.' !in labels[j..][k]
      {
        ContainsChar(labels[j + k], '.');
      }
      CountJoin(labels[j..], '.');
    }
  }

  /**
   * The extracted domain holds no "@" and starts right after the "@" or
   * right after a ".": it is a whole tail of the address's labels.
   */
  lemma {:induction false} ExtractedDomainStart(email: string)
    requires ExtractDomainFromEmail(email).Ok?
    ensures var d := ExtractDomainFromEmail(email).value;
            '@' !in d && |d| < |email| && (email[|email| - |d| - 1] == '@' || email[|email| - |d| - 1] == '.')
  {
    var parts := Split(email, "@");
    assert EmailParts(email) == parts;
    var labels := Split(parts[1], ".");
    var n := |labels|;
    var k := if n > 2 && ByteLen(labels[n - 2]) <= 3 then 3 else 2;
    assert ExtractDomainFromEmail(email).value == Join(labels[n - k..], ".");
    DomainStartOf(email, n - k);
  }

  /** Where the kept labels start in the address, and that they hold no "@". */
  lemma {:induction false} DomainStartOf(email: string, j: nat)
    requires |Split(email, "@")| == 2
    requires j < |Split(Split(email, "@")[1], ".")|
    ensures var labels := Split(Split(email, "@")[1], "."); var main := Join(labels[j..], ".");
            '@' !in main && |main| < |email| &&
            email[|email| - |main| - 1] == (if j == 0 then '@' else '.')
  {
    var parts := Split(email, "@");
    var domain := parts[1];
    var labels := Split(domain, ".");
    assert Join(labels, ".") == domain by {
      JoinSplit(domain, ".");
    }
    assert email == parts[0] + "@" + domain by {
      JoinSplit(email, "@");
      assert parts[1..] == [domain];
    }
    assert '@' !in domain by {
      SplitPiecesFree(email, "@");
      ContainsChar(domain, '@');
    }
    DomainStart(email, parts[0], domain, labels, j);
  }

  /**
   * In `pre@domain`, a tail of the domain's labels is preceded by the "@"
   * when it is the whole domain and by a "." otherwise.
   */
  lemma {:induction false} DomainStart(email: string, pre: string, domain: string, labels: seq<string>, j: nat)
    requires email == pre + "@" + domain
    requires Join(labels, ".") == domain && j < |labels| && '@' !in domain
    ensures var main := Join(labels[j..], ".");
            '@' !in main && |main| < |email| &&
            email[|email| - |main| - 1] == (if j == 0 then '@' else '.')
  {
    var main := Join(labels[j..], ".");
    JoinTail(labels, j, ".");
    if j > 0 {
      JoinTailSep(labels, j, ".");
    }
    SuffixFree(domain, main, '@');
    var p := pre + "@";
    assert email == p + domain;
    if j == 0 {
      assert labels[j..] == labels;
      assert email[|p| - 1] == '@';
    } else {
      var at := |domain| - |main| - 1;
      assert domain[at..at + 1] == ".";
      assert email[|p| + at] == domain[at];
    }
  }

  /** A suffix of a string without `c` has no `c` either. */
  lemma SuffixFree(s: string, t: string, c: char)
    requires |t| <= |s| && s[|s| - |t|..] == t && c !in s
    ensures c !in t
  {
  }

  /** An address with exactly one "@" splits into its local part and its domain. */
  lemma {:induction false} EmailPartsOf(local: string, domain: string)
    requires '@' !in local && '@' !in domain
    ensures EmailParts(local + "@" + domain) == [local, domain]
    ensures CountChar(local + "@" + domain, '@') == 1
  {
    SplitCons(local, '@', domain);
    ContainsChar(domain, '@');
    SplitFree(domain, "@");
  }
}
