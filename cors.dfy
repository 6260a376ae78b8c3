/** The CORS origin list `bootstrap` builds from `CORS_ORIGINS`: the
    comma-separated entries, trimmed, without empty ones, or the local
    frontend when none remain. */
module Cors {
  import opened Wrappers
  import opened Text

  const DEFAULT_ORIGIN: string := "http://localhost:3010"

  predicate IsComma(c: char) {
    c == ','
  }

  /** `map(o => o.trim())`. */
  function TrimAll(pieces: seq<string>): seq<string> {
    if pieces == [] then [] else [Trim(pieces[0])] + TrimAll(pieces[1..])
  }

  lemma {:induction false} TrimAllHas(pieces: seq<string>, o: string)
    ensures o in TrimAll(pieces) <==> exists i :: 0 <= i < |pieces| && o == Trim(pieces[i])
  {
    if pieces != [] {
      TrimAllHas(pieces[1..], o);
      if exists i :: 0 <= i < |pieces[1..]| && o == Trim(pieces[1..][i]) {
        var i :| 0 <= i < |pieces[1..]| && o == Trim(pieces[1..][i]);
        assert o == Trim(pieces[i + 1]);
      }
      if exists i :: 0 <= i < |pieces| && o == Trim(pieces[i]) {
        var i :| 0 <= i < |pieces| && o == Trim(pieces[i]);
        if i > 0 {
          assert pieces[1..][i - 1] == pieces[i];
        }
      }
    }
  }

  lemma {:induction false} TrimAllAppend(xs: seq<string>, ys: seq<string>)
    ensures TrimAll(xs + ys) == TrimAll(xs) + TrimAll(ys)
  {
    if xs == [] {
      assert xs + ys == ys;
    } else {
      assert (xs + ys)[0] == xs[0];
      assert (xs + ys)[1..] == xs[1..] + ys;
      TrimAllAppend(xs[1..], ys);
    }
  }

  lemma {:induction false} TrimAllKeeps(xs: seq<string>)
    requires forall k :: 0 <= k < |xs| ==> Trim(xs[k]) == xs[k]
    ensures TrimAll(xs) == xs
  {
    if xs != [] {
      TrimAllKeeps(xs[1..]);
    }
  }

  /** `(CORS_ORIGINS ?? '').split(',').map(o => o.trim()).filter(o => o.length > 0)`. */
  function OriginPieces(raw: Option<string>): seq<string> {
    NonEmpty(TrimAll(Split(raw.GetOr(""), IsComma)))
  }

  /** The list handed to `enableCors`. */
  function Origins(raw: Option<string>): seq<string> {
    if OriginPieces(raw) == [] then [DEFAULT_ORIGIN] else OriginPieces(raw)
  }

  /** The parse, and the `push` of the default onto the empty list. */
  method AllowedOrigins(raw: Option<string>) returns (allowedOrigins: seq<string>)
    ensures allowedOrigins == Origins(raw)
  {
    allowedOrigins := OriginPieces(raw);
    if |allowedOrigins| == 0 {
      allowedOrigins := allowedOrigins + [DEFAULT_ORIGIN];
    }
  }

  /** Every origin is non-empty, has no comma and no surrounding space. */
  lemma OriginsAreTrimmed(raw: Option<string>)
    ensures forall k :: 0 <= k < |Origins(raw)| ==>
      var o := Origins(raw)[k];
      && o != [] && !IsSpace(o[0]) && !IsSpace(o[|o| - 1])
      && forall j :: 0 <= j < |o| ==> o[j] != ','
  {
    var pieces := Split(raw.GetOr(""), IsComma);
    SplitPieces(raw.GetOr(""), IsComma);
    if OriginPieces(raw) != [] {
      forall k | 0 <= k < |OriginPieces(raw)|
        ensures var o := OriginPieces(raw)[k];
          && !IsSpace(o[0]) && !IsSpace(o[|o| - 1]) && forall j :: 0 <= j < |o| ==> o[j] != ','
      {
        var o := OriginPieces(raw)[k];
        assert o in TrimAll(pieces);
        TrimAllHas(pieces, o);
        var i :| 0 <= i < |pieces| && o == Trim(pieces[i]);
        TrimBlank(pieces[i]);
        forall j | 0 <= j < |o| ensures o[j] != ',' {
          assert o[j] in pieces[i];
          var m :| 0 <= m < |pieces[i]| && pieces[i][m] == o[j];
        }
      }
    }
  }

  /** Nothing but commas and spaces is the same as pieces that all trim
      to nothing. */
  lemma PiecesBlank(s: string)
    ensures (forall k :: 0 <= k < |s| ==> IsComma(s[k]) || IsSpace(s[k])) <==>
      forall i :: 0 <= i < |Split(s, IsComma)| ==> Trim(Split(s, IsComma)[i]) == []
  {
    var pieces := Split(s, IsComma);
    SplitPieces(s, IsComma);
    ConcatHas(pieces);
    StrippedHas(s, IsComma);
    if forall k :: 0 <= k < |s| ==> IsComma(s[k]) || IsSpace(s[k]) {
      forall i | 0 <= i < |pieces| ensures Trim(pieces[i]) == [] {
        forall j | 0 <= j < |pieces[i]| ensures IsSpace(pieces[i][j]) {
          var c := pieces[i][j];
          assert c in pieces[i];
          assert c in Concat(pieces);
          assert c in s && !IsComma(c);
          var k :| 0 <= k < |s| && s[k] == c;
        }
        TrimBlank(pieces[i]);
      }
    } else {
      var k :| 0 <= k < |s| && !IsComma(s[k]) && !IsSpace(s[k]);
      assert s[k] in s;
      assert s[k] in Concat(pieces);
      var i :| 0 <= i < |pieces| && s[k] in pieces[i];
      TrimBlank(pieces[i]);
      var j :| 0 <= j < |pieces[i]| && pieces[i][j] == s[k];
    }
  }

  /** After trimming, nothing is left exactly when every piece trims to
      nothing. */
  lemma {:induction false} NothingLeft(pieces: seq<string>)
    ensures NonEmpty(TrimAll(pieces)) == [] <==> forall i :: 0 <= i < |pieces| ==> Trim(pieces[i]) == []
  {
    if pieces != [] {
      NothingLeft(pieces[1..]);
      assert TrimAll(pieces) == [Trim(pieces[0])] + TrimAll(pieces[1..]);
      assert TrimAll(pieces)[1..] == TrimAll(pieces[1..]);
      if forall i :: 1 <= i < |pieces| ==> Trim(pieces[i]) == [] {
        forall i | 0 <= i < |pieces[1..]| ensures Trim(pieces[1..][i]) == [] {
          assert pieces[1..][i] == pieces[i + 1];
        }
      }
      if forall i :: 0 <= i < |pieces[1..]| ==> Trim(pieces[1..][i]) == [] {
        forall i | 1 <= i < |pieces| ensures Trim(pieces[i]) == [] {
          assert pieces[1..][i - 1] == pieces[i];
        }
      }
    }
  }

  /** The default is used exactly when nothing but commas and spaces was
      given, an unset variable included; it is never added to a non-empty
      list. */
  lemma OriginsDefault(raw: Option<string>)
    ensures OriginPieces(raw) == [] <==>
      forall k :: 0 <= k < |raw.GetOr("")| ==> IsComma(raw.GetOr("")[k]) || IsSpace(raw.GetOr("")[k])
    ensures OriginPieces(raw) != [] ==> Origins(raw) == OriginPieces(raw)
    ensures Origins(None) == [DEFAULT_ORIGIN]
  {
    var s := raw.GetOr("");
    PiecesBlank(s);
    NothingLeft(Split(s, IsComma));
    assert OriginPieces(raw) == NonEmpty(TrimAll(Split(s, IsComma)));
    PiecesBlank("");
    NothingLeft(Split("", IsComma));
  }

  /** Entries keep their input order: a comma splits the origins of the two
      sides apart. */
  lemma OriginPiecesAppend(a: string, b: string)
    ensures OriginPieces(Some(a + "," + b)) == OriginPieces(Some(a)) + OriginPieces(Some(b))
  {
    SplitAppend(a, ',', b, IsComma);
    var pa := Split(a, IsComma);
    var pb := Split(b, IsComma);
    TrimAllAppend(pa, pb);
    NonEmptyAppend(TrimAll(pa), TrimAll(pb));
  }

  /** Origins written comma-separated, with no surrounding space, are read
      back as they are. */
  lemma OriginsRoundTrip(origins: seq<string>)
    requires |origins| >= 1
    requires forall k :: 0 <= k < |origins| ==>
      var o := origins[k];
      && o != [] && !IsSpace(o[0]) && !IsSpace(o[|o| - 1]) && forall j :: 0 <= j < |o| ==> o[j] != ','
    ensures Origins(Some(Join(origins, ','))) == origins
  {
    forall k | 0 <= k < |origins| ensures Unseparated(origins[k], IsComma) && Trim(origins[k]) == origins[k] {
      TrimKeeps(origins[k]);
    }
    SplitJoin(origins, ',', IsComma);
    TrimAllKeeps(origins);
    NonEmptyKeepsAll(origins);
  }
}
