/** The REST path matcher `CustomKeyMatch` of the enforcer package: a request
    path (key1) is compared, segment by segment, with a route pattern (key2)
    whose segments are literals, the wildcard `*`, or named parameters
    `{name}`. */
module KeyMatch {
  import opened GoStrings

  /** One character of the class [a-zA-Z0-9_\-\.]. */
  predicate IsIdentChar(c: char) {
    ('a' <= c <= 'z') || ('A' <= c <= 'Z') || IsDigit(c) || c == '_' || c == '-' || c == '.'
  }

  /** The whole segment matches ^[0-9]+$. */
  predicate IsNumeric(s: string) {
    |s| > 0 && forall k :: 0 <= k < |s| ==> IsDigit(s[k])
  }

  /** The whole segment matches ^[a-zA-Z0-9_\-\.]+$. */
  predicate IsIdentifier(s: string) {
    |s| > 0 && forall k :: 0 <= k < |s| ==> IsIdentChar(s[k])
  }

  /** The segments of a path: slashes trimmed from both ends, then split on
      every remaining slash. */
  function Segments(path: string): (segs: seq<string>)
    ensures |segs| >= 1
    ensures forall k :: 0 <= k < |segs| ==> '/' !in segs[k]
    ensures Join(segs, '/') == Trim(path, '/')
  {
    Split(Trim(path, '/'), '/')
  }

  /** What a pattern segment asks of the request segment in its position. */
  datatype SegmentKind = Param(name: string) | Wildcard | Literal

  /** A segment that starts with `{` and ends with `}` names a parameter. */
  predicate IsParamSegment(seg: string) {
    HasPrefix(seg, "{") && HasSuffix(seg, "}")
  }

  /** A parameter segment is at least the two braces long. */
  lemma ParamSegmentShape(seg: string)
    requires IsParamSegment(seg)
    ensures |seg| >= 2 && seg[0] == '{' && seg[|seg| - 1] == '}'
  {
    assert seg[..1][0] == seg[0];
    assert seg[|seg| - 1..][0] == seg[|seg| - 1];
  }

  /** Classification in the order the matcher tests it: parameter first, then
      wildcard, otherwise literal. */
  function Kind(seg: string): SegmentKind {
    if IsParamSegment(seg) then
      ParamSegmentShape(seg);
      Param(seg[1..|seg| - 1])
    else if seg == "*" then Wildcard
    else Literal
  }

  /** Whether request segment `req` passes the check of pattern segment `pat`. */
  predicate SegmentMatches(req: string, pat: string) {
    match Kind(pat)
    case Param(name) => if HasSuffix(name, "ID") then IsNumeric(req) else IsIdentifier(req)
    case Wildcard => true
    case Literal => req == pat
  }

  /** The left-to-right positional pass over equally long segment lists. */
  predicate AllSegmentsMatch(reqs: seq<string>, pats: seq<string>)
    requires |reqs| == |pats|
  {
    reqs == [] || (SegmentMatches(reqs[0], pats[0]) && AllSegmentsMatch(reqs[1..], pats[1..]))
  }

  /** The pass succeeds exactly when every position passes its own check. */
  lemma {:induction false} AllSegmentsMatchIff(reqs: seq<string>, pats: seq<string>)
    requires |reqs| == |pats|
    ensures AllSegmentsMatch(reqs, pats) <==>
            forall k :: 0 <= k < |reqs| ==> SegmentMatches(reqs[k], pats[k])
    decreases |reqs|
  {
    if reqs != [] {
      AllSegmentsMatchIff(reqs[1..], pats[1..]);
      if forall k :: 0 <= k < |reqs| ==> SegmentMatches(reqs[k], pats[k]) {
        forall k | 0 <= k < |reqs| - 1
          ensures SegmentMatches(reqs[1..][k], pats[1..][k])
        {
          assert reqs[1..][k] == reqs[k + 1] && pats[1..][k] == pats[k + 1];
        }
      }
      if AllSegmentsMatch(reqs, pats) {
        forall k | 0 <= k < |reqs|
          ensures SegmentMatches(reqs[k], pats[k])
        {
          if k > 0 {
            assert reqs[1..][k - 1] == reqs[k] && pats[1..][k - 1] == pats[k];
          }
        }
      }
    }
  }

  /** The value CustomKeyMatch(key1, key2) returns: equal segment counts and
      a successful positional pass. */
  predicate Matches(key1: string, key2: string) {
    var reqs, pats := Segments(key1), Segments(key2);
    |reqs| == |pats| && AllSegmentsMatch(reqs, pats)
  }

  /** A match holds exactly when the segment counts agree and every request
      segment passes the check of the pattern segment in the same position. */
  lemma MatchesIff(key1: string, key2: string)
    ensures Matches(key1, key2) <==>
            |Segments(key1)| == |Segments(key2)| &&
            forall k :: 0 <= k < |Segments(key1)| ==>
              SegmentMatches(Segments(key1)[k], Segments(key2)[k])
  {
    if |Segments(key1)| == |Segments(key2)| {
      AllSegmentsMatchIff(Segments(key1), Segments(key2));
    }
  }

  /** One position of the matcher: the parameter test comes first, then the
      wildcard, then literal equality. */
  method CheckSegment(req: string, pat: string) returns (ok: bool)
    ensures ok == SegmentMatches(req, pat)
  {
    if HasPrefix(pat, "{") && HasSuffix(pat, "}") {
      ParamSegmentShape(pat);
      var paramName := pat[1..|pat| - 1];
      if HasSuffix(paramName, "ID") {
        ok := IsNumeric(req);
      } else {
        ok := IsIdentifier(req);
      }
      return;
    }
    if pat == "*" {
      return true;
    }
    ok := req == pat;
  }

  /** The matcher as written: split both keys, compare the counts, then one
      index loop that returns false at the first position whose check fails. */
  method CustomKeyMatch(key1: string, key2: string) returns (r: bool)
    ensures r == Matches(key1, key2)
  {
    var key1Parts := Segments(key1);
    var key2Parts := Segments(key2);
    if |key1Parts| != |key2Parts| {
      return false;
    }
    var i := 0;
    while i < |key1Parts|
      invariant 0 <= i <= |key1Parts|
      invariant AllSegmentsMatch(key1Parts, key2Parts) ==
                AllSegmentsMatch(key1Parts[i..], key2Parts[i..])
    {
      assert key1Parts[i..][1..] == key1Parts[i + 1..];
      assert key2Parts[i..][1..] == key2Parts[i + 1..];
      var ok := CheckSegment(key1Parts[i], key2Parts[i]);
      if !ok {
        return false;
      }
      i := i + 1;
    }
    return true;
  }

  // ---------------------------------------------------------------------
  // Properties of the matcher

  /** Leading and trailing slashes do not change a path's segments. */
  lemma SegmentsIgnoreOuterSlashes(path: string)
    ensures Segments("/" + path) == Segments(path)
    ensures Segments(path + "/") == Segments(path)
  {
    TrimIgnoresOuter(path, '/');
  }

  /** The empty path and the root path are both one empty segment. */
  lemma SegmentsOfRoot()
    ensures Segments("") == [""]
    ensures Segments("/") == [""]
  {
    assert Trim("/", '/') == "";
  }

  /** "/a/b/" and "a/b" are the same two segments. */
  lemma SegmentsOfTwoLevels()
    ensures Segments("/a/b/") == Segments("a/b") == ["a", "b"]
  {
    TwoLevelsText();
    SegmentsOfJoin(["a", "b"]);
    SegmentsIgnoreBothSlashes("a/b");
  }

  lemma TwoLevelsText()
    ensures Join(["a", "b"], '/') == "a/b"
    ensures "/" + ("a/b" + "/") == "/a/b/"
  {
    JoinTwo("a", "b");
  }

  lemma SegmentsIgnoreBothSlashes(path: string)
    ensures Segments("/" + (path + "/")) == Segments(path)
  {
    SegmentsIgnoreOuterSlashes(path);
    SegmentsIgnoreOuterSlashes(path + "/");
  }

  /** A doubled slash in the middle yields an empty segment. */
  lemma SegmentsOfDoubledSlash()
    ensures Segments("a//b") == ["a", "", "b"]
  {
    assert Trim("a//b", '/') == "a//b";
    SplitOfDoubledSlash();
  }

  lemma SplitOfDoubledSlash()
    ensures Split("a//b", '/') == ["a", "", "b"]
  {
    assert Join(["a", "", "b"], '/') == "a//b";
    SplitJoin(["a", "", "b"], '/');
  }

  /** A path written as slash-separated segments, none of them containing a
      slash and the outer ones non-empty, has exactly those segments. */
  lemma {:induction false} SegmentsOfJoin(segs: seq<string>)
    requires |segs| >= 1
    requires forall k :: 0 <= k < |segs| ==> '/' !in segs[k]
    requires segs[0] != "" && segs[|segs| - 1] != ""
    ensures Segments(Join(segs, '/')) == segs
  {
    JoinEnds(segs);
    TrimUntouched(Join(segs, '/'), '/');
    SplitJoin(segs, '/');
  }

  lemma {:induction false} JoinEnds(segs: seq<string>)
    requires |segs| >= 1
    requires segs[0] != "" && segs[|segs| - 1] != ""
    ensures var s := Join(segs, '/');
      s != [] && s[0] == segs[0][0] && s[|s| - 1] == segs[|segs| - 1][|segs[|segs| - 1]| - 1]
  {
    if |segs| > 1 {
      JoinLast(segs[1..]);
    }
  }

  lemma {:induction false} JoinLast(segs: seq<string>)
    requires |segs| >= 1
    requires segs[|segs| - 1] != ""
    ensures var s := Join(segs, '/');
      s != [] && s[|s| - 1] == segs[|segs| - 1][|segs[|segs| - 1]| - 1]
  {
    if |segs| > 1 {
      JoinLast(segs[1..]);
    }
  }

  lemma JoinTwo(a: string, b: string)
    ensures Join([a, b], '/') == a + "/" + b
  {
    assert [a, b][1..] == [b];
  }

  /** The same for a path written with a leading slash. */
  lemma SegmentsOfRooted(path: string, segs: seq<string>)
    requires |segs| >= 1
    requires forall k :: 0 <= k < |segs| ==> '/' !in segs[k]
    requires segs[0] != "" && segs[|segs| - 1] != ""
    requires path == "/" + Join(segs, '/')
    ensures Segments(path) == segs
  {
    SegmentsIgnoreOuterSlashes(Join(segs, '/'));
    SegmentsOfJoin(segs);
  }

  /** A literal pattern segment matches exactly the identical request segment. */
  lemma LiteralSegmentMatches(req: string, pat: string)
    requires !IsParamSegment(pat) && pat != "*"
    ensures SegmentMatches(req, pat) <==> req == pat
  {
  }

  /** The wildcard matches every request segment, the empty one included. */
  lemma WildcardMatchesAny(req: string)
    ensures SegmentMatches(req, "*")
  {
    assert !HasPrefix("*", "{") by { assert "*"[..1] == "*"; }
  }

  /** `{name}` asks for a non-empty digit string when `name` ends in "ID"
      (case-sensitive) and for a non-empty [a-zA-Z0-9_.-] string otherwise. */
  lemma ParamSegmentMatches(req: string, name: string)
    ensures SegmentMatches(req, "{" + name + "}") <==>
            if HasSuffix(name, "ID") then IsNumeric(req) else IsIdentifier(req)
  {
    var seg := "{" + name + "}";
    assert seg[..1] == "{" && seg[|seg| - 1..] == "}";
    assert seg[1..|seg| - 1] == name;
  }

  /** `{*}` is a parameter, not a wildcard: it rejects the empty segment,
      which `*` accepts. */
  lemma BraceStarIsParameter(req: string)
    ensures SegmentMatches(req, "{*}") <==> IsIdentifier(req)
    ensures !SegmentMatches("", "{*}") && SegmentMatches("", "*")
  {
    ParamSegmentMatches(req, "*");
    ParamSegmentMatches("", "*");
    assert "{" + "*" + "}" == "{*}";
    WildcardMatchesAny("");
  }

  /** Paths whose segments hold no parameter pattern match themselves. */
  lemma MatchesItself(p: string)
    requires forall k :: 0 <= k < |Segments(p)| ==> !IsParamSegment(Segments(p)[k])
    ensures Matches(p, p)
  {
    var segs := Segments(p);
    forall k | 0 <= k < |segs| ensures SegmentMatches(segs[k], segs[k]) {
      assert !Kind(segs[k]).Param?;
    }
    MatchesIff(p, p);
  }

  /** Different segment counts never match, however permissive the pattern. */
  lemma CountMismatchFails(key1: string, key2: string)
    requires |Segments(key1)| != |Segments(key2)|
    ensures !Matches(key1, key2)
  {
  }

  // ---------------------------------------------------------------------
  // Routes of the service, matched against sample request paths

  lemma MatchesTwoSegments(key1: string, key2: string, r0: string, r1: string, p0: string, p1: string)
    requires Segments(key1) == [r0, r1] && Segments(key2) == [p0, p1]
    ensures Matches(key1, key2) <==> SegmentMatches(r0, p0) && SegmentMatches(r1, p1)
  {
    AllSegmentsMatchTwo([r0, r1], [p0, p1]);
  }

  lemma AllSegmentsMatchTwo(rs: seq<string>, ps: seq<string>)
    requires |rs| == 2 && |ps| == 2
    ensures AllSegmentsMatch(rs, ps) <==> SegmentMatches(rs[0], ps[0]) && SegmentMatches(rs[1], ps[1])
  {
    var rt, pt := rs[1..], ps[1..];
    assert rt[0] == rs[1] && pt[0] == ps[1];
    assert rt[1..] == [];
    assert AllSegmentsMatch(rt[1..], pt[1..]);
    assert AllSegmentsMatch(rt, pt) == SegmentMatches(rs[1], ps[1]);
    assert AllSegmentsMatch(rs, ps) == (SegmentMatches(rs[0], ps[0]) && AllSegmentsMatch(rt, pt));
  }

  lemma SegmentsOfProductsTwelve()
    ensures Segments("/products/12") == ["products", "12"]
  {
    JoinTwo("products", "12");
    assert "/" + ("products" + "/" + "12") == "/products/12";
    SegmentsOfRooted("/products/12", ["products", "12"]);
  }

  lemma SegmentsOfProductsAb()
    ensures Segments("/products/ab") == ["products", "ab"]
  {
    JoinTwo("products", "ab");
    assert "/" + ("products" + "/" + "ab") == "/products/ab";
    SegmentsOfRooted("/products/ab", ["products", "ab"]);
  }

  lemma SegmentsOfProductRoute()
    ensures Segments("/products/{productId}") == ["products", "{productId}"]
  {
    JoinTwo("products", "{productId}");
    assert "/" + ("products" + "/" + "{productId}") == "/products/{productId}";
    SegmentsOfRooted("/products/{productId}", ["products", "{productId}"]);
  }

  lemma SegmentsOfNumericProductRoute()
    ensures Segments("/products/{productID}") == ["products", "{productID}"]
  {
    JoinTwo("products", "{productID}");
    assert "/" + ("products" + "/" + "{productID}") == "/products/{productID}";
    SegmentsOfRooted("/products/{productID}", ["products", "{productID}"]);
  }

  lemma LiteralProductsMatches()
    ensures SegmentMatches("products", "products")
  {
    LiteralSegmentMatches("products", "products");
  }

  lemma ProductIdParamTakesIdentifiers()
    ensures SegmentMatches("12", "{productId}") && SegmentMatches("ab", "{productId}")
  {
    assert !HasSuffix("productId", "ID") by { assert "productId"[7..] == "Id"; }
    assert "{" + "productId" + "}" == "{productId}";
    ParamSegmentMatches("12", "productId");
    ParamSegmentMatches("ab", "productId");
    assert IsIdentifier("12") && IsIdentifier("ab");
  }

  lemma ProductIDParamTakesDigits()
    ensures SegmentMatches("12", "{productID}") && !SegmentMatches("ab", "{productID}")
  {
    assert HasSuffix("productID", "ID") by { assert "productID"[7..] == "ID"; }
    assert "{" + "productID" + "}" == "{productID}";
    ParamSegmentMatches("12", "productID");
    ParamSegmentMatches("ab", "productID");
    assert IsNumeric("12");
    assert !IsNumeric("ab") by { assert !IsDigit("ab"[0]); }
  }

  /** The service's routes name their parameter `{productId}`; "Id" is not the
      case-sensitive suffix "ID", so the parameter takes any identifier: both
      a number and a word pass. */
  lemma ProductRouteAcceptsIdentifiers()
    ensures Matches("/products/12", "/products/{productId}")
    ensures Matches("/products/ab", "/products/{productId}")
  {
    SegmentsOfProductsTwelve();
    SegmentsOfProductsAb();
    SegmentsOfProductRoute();
    LiteralProductsMatches();
    ProductIdParamTakesIdentifiers();
    MatchesTwoSegments("/products/12", "/products/{productId}", "products", "12", "products", "{productId}");
    MatchesTwoSegments("/products/ab", "/products/{productId}", "products", "ab", "products", "{productId}");
  }

  /** Spelled `{productID}`, the parameter takes digits only. */
  lemma NumericRouteRejectsWords()
    ensures Matches("/products/12", "/products/{productID}")
    ensures !Matches("/products/ab", "/products/{productID}")
  {
    SegmentsOfProductsTwelve();
    SegmentsOfProductsAb();
    SegmentsOfNumericProductRoute();
    LiteralProductsMatches();
    ProductIDParamTakesDigits();
    MatchesTwoSegments("/products/12", "/products/{productID}", "products", "12", "products", "{productID}");
    MatchesTwoSegments("/products/ab", "/products/{productID}", "products", "ab", "products", "{productID}");
  }

  lemma SegmentsOfAB()
    ensures Segments("/a/b") == ["a", "b"]
  {
    assert Join(["a", "b"], '/') == "a/b";
    SegmentsOfRooted("/a/b", ["a", "b"]);
  }

  lemma SegmentsOfAStar()
    ensures Segments("/a/*") == ["a", "*"]
  {
    assert Join(["a", "*"], '/') == "a/*";
    SegmentsOfRooted("/a/*", ["a", "*"]);
  }

  lemma SegmentsOfThreeLevels()
    ensures Segments("/a/b/c") == ["a", "b", "c"]
  {
    assert Join(["a", "b", "c"], '/') == "a/b/c";
    SegmentsOfRooted("/a/b/c", ["a", "b", "c"]);
  }

  /** A trailing wildcard stands for exactly one segment. */
  lemma WildcardIsOneSegment()
    ensures Matches("/a/b", "/a/*")
    ensures !Matches("/a/b/c", "/a/*")
  {
    SegmentsOfAB();
    SegmentsOfAStar();
    SegmentsOfThreeLevels();
    LiteralSegmentMatches("a", "a");
    WildcardMatchesAny("b");
    MatchesTwoSegments("/a/b", "/a/*", "a", "b", "a", "*");
    CountMismatchFails("/a/b/c", "/a/*");
  }

  lemma MatchesThreeSegments(key1: string, key2: string, r: seq<string>, p: seq<string>)
    requires |r| == 3 && |p| == 3
    requires Segments(key1) == r && Segments(key2) == p
    ensures Matches(key1, key2) <==>
            SegmentMatches(r[0], p[0]) && SegmentMatches(r[1], p[1]) && SegmentMatches(r[2], p[2])
  {
    AllSegmentsMatchTwo(r[1..], p[1..]);
  }

  lemma SegmentsOfStarMiddle()
    ensures Segments("a/*/b") == ["a", "*", "b"]
  {
    assert Join(["a", "*", "b"], '/') == "a/*/b";
    SegmentsOfJoin(["a", "*", "b"]);
  }

  lemma SegmentsOfParamMiddle()
    ensures Segments("a/{x}/b") == ["a", "{x}", "b"]
  {
    assert Join(["a", "{x}", "b"], '/') == "a/{x}/b";
    SegmentsOfJoin(["a", "{x}", "b"]);
  }

  lemma EmptySegmentChecks()
    ensures SegmentMatches("a", "a") && SegmentMatches("b", "b")
    ensures SegmentMatches("", "*") && !SegmentMatches("", "{x}")
  {
    LiteralSegmentMatches("a", "a");
    LiteralSegmentMatches("b", "b");
    WildcardMatchesAny("");
    assert "{" + "x" + "}" == "{x}";
    ParamSegmentMatches("", "x");
  }

  /** The empty segment left by a doubled slash passes a wildcard but no
      parameter. */
  lemma EmptySegmentPassesOnlyWildcard()
    ensures Matches("a//b", "a/*/b")
    ensures !Matches("a//b", "a/{x}/b")
  {
    SegmentsOfDoubledSlash();
    SegmentsOfStarMiddle();
    SegmentsOfParamMiddle();
    EmptySegmentChecks();
    MatchesThreeSegments("a//b", "a/*/b", ["a", "", "b"], ["a", "*", "b"]);
    MatchesThreeSegments("a//b", "a/{x}/b", ["a", "", "b"], ["a", "{x}", "b"]);
  }
}
