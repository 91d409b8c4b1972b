/**
 Access control expressions as text (`Display` and the `parse` module of src/access.rs).
 Parsing what was printed gives back the expression with the parts of every list sorted.
 */
module AccessText {
  import opened Bytes
  import opened Sorting
  import opened Access

  // ---------------------------------------------------------------- printing

  function Print(a: Access): string
    decreases a, 0
  {
    match a
    case Or(items) => "Or(" + PrintList(items) + ")"
    case And(items) => "And(" + PrintList(items) + ")"
    case Token(name) => "\"" + name + "\""
    case Always => "Always"
  }

  /** The parts joined by a comma and a space. */
  function PrintList(items: seq<Access>): string
    decreases items, 1
  {
    if items == [] then ""
    else if |items| == 1 then Print(items[0])
    else Print(items[0]) + ", " + PrintList(items[1..])
  }

  // ---------------------------------------------------------------- parsing

  /** A value read from the front of a text, and the rest of the text. */
  datatype Parsed<+T> = Fail | Ok(value: T, rest: string)

  /** `multispace0`. */
  function SkipSpace(s: string): (r: string)
    ensures |r| <= |s|
  {
    if s != [] && s[0] in {' ', '\t', '\r', '\n'} then SkipSpace(s[1..]) else s
  }

  /** `tag`. */
  function Tag(s: string, tag: string): Parsed<()> {
    if |tag| <= |s| && s[..|tag|] == tag then Ok((), s[|tag|..]) else Fail
  }

  function LowerChar(c: char): char {
    if 'A' <= c <= 'Z' then (c as int + 32) as char else c
  }

  /** `tag_no_case`, for a tag in lower case letters. */
  function TagNoCase(s: string, tag: string): Parsed<()> {
    if |tag| <= |s| && forall i :: 0 <= i < |tag| ==> LowerChar(s[i]) == tag[i] then Ok((), s[|tag|..]) else Fail
  }

  /** `is_not("\"")`: everything up to a quote, if there is anything. */
  function UpToQuote(s: string): (n: nat)
    ensures n <= |s|
    ensures forall i :: 0 <= i < n ==> s[i] != '\"'
    ensures n < |s| ==> s[n] == '\"'
  {
    if s == [] || s[0] == '\"' then 0 else 1 + UpToQuote(s[1..])
  }

  /** The length of one piece of a literal: a double backslash, a backslash and quote, or a run without quotes. */
  function Piece(s: string): (n: nat)
    ensures n <= |s|
  {
    if |s| >= 2 && s[0] == '\\' && (s[1] == '\\' || s[1] == '\"') then 2 else UpToQuote(s)
  }

  /** `many1` of the pieces, joined: how much text they take up. */
  function Pieces(s: string): (n: nat)
    ensures n <= |s|
    decreases |s|
  {
    if Piece(s) == 0 then 0 else Piece(s) + Pieces(s[Piece(s)..])
  }

  function ParseLiteral(s: string): (r: Parsed<Access>)
    ensures r.Ok? ==> |r.rest| < |s|
  {
    if s == [] || s[0] != '\"' then Fail
    else
      var n := Pieces(s[1..]);
      if n == 0 || 1 + n >= |s| || s[1 + n] != '\"' then Fail
      else Ok(Token(s[1..1 + n]), s[2 + n..])
  }

  function ParseAlways(s: string): (r: Parsed<Access>)
    ensures r.Ok? ==> |r.rest| < |s|
  {
    match TagNoCase(s, "always")
    case Fail => Fail
    case Ok(_, rest) => Ok(Always, rest)
  }

  /** `parse_access`: one expression with white space around it. */
  function ParseAccess(s: string): (r: Parsed<Access>)
    ensures r.Ok? ==> |r.rest| < |s|
    decreases |s|, 2
  {
    var t := SkipSpace(s);
    var literal, conjunction, disjunction := ParseLiteral(t), ParseNode(t, "and"), ParseNode(t, "or");
    var found := if literal.Ok? then literal
                 else if conjunction.Ok? then Ok(And(conjunction.value), conjunction.rest)
                 else if disjunction.Ok? then Ok(Or(disjunction.value), disjunction.rest)
                 else ParseAlways(t);
    match found
    case Fail => Fail
    case Ok(a, rest) => Ok(a, SkipSpace(rest))
  }

  /** A keyword, then a list of expressions in parentheses; the list comes out sorted. */
  function ParseNode(s: string, keyword: string): (r: Parsed<seq<Access>>)
    requires keyword != ""
    ensures r.Ok? ==> |r.rest| < |s|
    decreases |s|, 1
  {
    match TagNoCase(s, keyword)
    case Fail => Fail
    case Ok(_, afterKeyword) =>
      match Tag(SkipSpace(afterKeyword), "(")
      case Fail => Fail
      case Ok(_, inner) =>
        match ParseList(inner)
        case Fail => Fail
        case Ok(items, afterList) =>
          match Tag(afterList, ")")
          case Fail => Fail
          case Ok(_, rest) => Ok(Sort(items, Leq), rest)
  }

  /** `separated_list1` with commas: a comma that no expression follows is left where it is. */
  function ParseList(s: string): (r: Parsed<seq<Access>>)
    ensures r.Ok? ==> |r.rest| < |s|
    decreases |s|, 3
  {
    match ParseAccess(s)
    case Fail => Fail
    case Ok(first, rest) =>
      if rest != [] && rest[0] == ',' then
        match ParseList(rest[1..])
        case Fail => Ok([first], rest)
        case Ok(more, end) => Ok([first] + more, end)
      else Ok([first], rest)
  }

  /** `FromStr`: the whole text must be used up. */
  function Parse(s: string): Option<Access> {
    match ParseAccess(s)
    case Fail => None
    case Ok(a, rest) => if rest == [] then Some(a) else None
  }

  // ---------------------------------------------------------------- literals

  /** The names that can be read back: pieces all the way, and no backslash that would escape the closing quote. */
  predicate Readable(name: string)
    decreases |name|
  {
    if |name| >= 2 && name[0] == '\\' && (name[1] == '\\' || name[1] == '\"') then
      |name| == 2 || Readable(name[2..])
    else
      name != "" && name != "\\" && UpToQuote(name) == |name|
  }

  lemma {:induction false} PiecesOfName(name: string, rest: string)
    requires name != ""
    ensures Pieces(name + "\"" + rest) == |name| <==> Readable(name)
    decreases |name|
  {
    var s := name + "\"" + rest;
    assert s[|name|] == '\"';
    assert forall i :: 0 <= i < |name| ==> s[i] == name[i];
    if |name| >= 2 && name[0] == '\\' && (name[1] == '\\' || name[1] == '\"') {
      assert s[2..] == name[2..] + "\"" + rest;
      if |name| > 2 {
        PiecesOfName(name[2..], rest);
      }
    }
  }

  /** Exactly when a printed token is read back as itself. */
  lemma LiteralIff(name: string, rest: string)
    ensures ParseLiteral("\"" + name + "\"" + rest) == Ok(Token(name), rest) <==> Readable(name)
  {
    var s := "\"" + name + "\"" + rest;
    var t := name + "\"" + rest;
    assert s[1..] == t && s[0] == '\"';
    assert !Readable("");
    if name == "" {
      assert Pieces(t) == 0;
    } else {
      PiecesOfName(name, rest);
    }
    hide Pieces; hide Readable;
    QuotedAt(s, name, rest);
  }

  lemma QuotedAt(s: string, name: string, rest: string)
    requires s == "\"" + name + "\"" + rest
    ensures |s| == |name| + |rest| + 2 && s[1 + |name|] == '\"' && s[2 + |name|..] == rest
    ensures s[1..1 + |name|] == name
  {
  }

  // ---------------------------------------------------------------- the round trip

  /** The expression with the parts of every list sorted, from the inside out. */
  function Sorted(a: Access): Access
    decreases a, 0
  {
    match a
    case Or(items) => Or(Sort(SortedAll(items), Leq))
    case And(items) => And(Sort(SortedAll(items), Leq))
    case Token(_) => a
    case Always => a
  }

  function SortedAll(items: seq<Access>): seq<Access>
    decreases items, 1
  {
    if items == [] then [] else [Sorted(items[0])] + SortedAll(items[1..])
  }

  /** No empty list, and only names that can be read back. */
  predicate Printable(a: Access) {
    match a
    case Or(items) => items != [] && forall i :: 0 <= i < |items| ==> Printable(items[i])
    case And(items) => items != [] && forall i :: 0 <= i < |items| ==> Printable(items[i])
    case Token(name) => Readable(name)
    case Always => true
  }

  /** Text that may follow a printed expression inside a list or at the end. */
  predicate Follows(rest: string) {
    rest == "" || rest[0] == ',' || rest[0] == ')'
  }

  lemma AccessUnfolds(s: string)
    ensures var t := SkipSpace(s);
            ParseAccess(s)
            == match (if ParseLiteral(t).Ok? then ParseLiteral(t)
                      else if ParseNode(t, "and").Ok? then Ok(And(ParseNode(t, "and").value), ParseNode(t, "and").rest)
                      else if ParseNode(t, "or").Ok? then Ok(Or(ParseNode(t, "or").value), ParseNode(t, "or").rest)
                      else ParseAlways(t))
               case Fail => Fail
               case Ok(a, rest) => Ok(a, SkipSpace(rest))
  {
  }

  /** White space before an expression makes no difference. */
  lemma Spaced(t: string)
    ensures ParseAccess(" " + t) == ParseAccess(t)
  {
    assert (" " + t)[1..] == t;
    AccessUnfolds(" " + t);
    AccessUnfolds(t);
  }

  /** The first letter decides which form is tried with success. */
  lemma FirstLetter(t: string, rest: string)
    requires t != "" && Follows(rest)
    ensures t[0] in {'A', 'O', '\"'} ==> SkipSpace(t) == t
    ensures SkipSpace(rest) == rest
    ensures t[0] != '\"' ==> ParseLiteral(t).Fail?
    ensures t[0] == 'O' ==> ParseNode(t, "and").Fail?
    ensures |t| >= 2 && t[0] == 'A' && t[1] == 'l' ==> ParseNode(t, "and").Fail? && ParseNode(t, "or").Fail?
  {
    assert t[0] == 'O' ==> LowerChar(t[0]) != "and"[0];
    assert |t| >= 2 && t[1] == 'l' ==> LowerChar(t[1]) != "and"[1] && LowerChar(t[1]) != "or"[1];
  }

  lemma TokenPrinted(name: string, rest: string)
    requires Readable(name) && Follows(rest)
    ensures ParseAccess(Print(Token(name)) + rest) == Ok(Token(name), rest)
  {
    var t := "\"" + name + "\"" + rest;
    assert Print(Token(name)) + rest == t;
    LiteralIff(name, rest);
    hide ParseLiteral; hide ParseNode; hide ParseAccess; hide Readable;
    FirstLetter(t, rest);
    AccessUnfolds(t);
  }

  lemma AlwaysPrinted(rest: string)
    requires Follows(rest)
    ensures ParseAccess(Print(Always) + rest) == Ok(Always, rest)
  {
    var t := "Always" + rest;
    assert t[|"always"|..] == rest;
    assert TagNoCase(t, "always") == Ok((), rest);
    hide ParseLiteral; hide ParseNode; hide ParseAccess; hide TagNoCase;
    FirstLetter(t, rest);
    AccessUnfolds(t);
  }

  /** A keyword and a parenthesised list that reads back. */
  lemma NodePrinted(word: string, keyword: string, body: string, items: seq<Access>, rest: string)
    requires (word == "And" && keyword == "and") || (word == "Or" && keyword == "or")
    requires Follows(rest) && ParseList(body + (")" + rest)) == Ok(items, ")" + rest)
    ensures ParseNode(word + ("(" + (body + (")" + rest))), keyword) == Ok(Sort(items, Leq), rest)
  {
    var closing := ")" + rest;
    var inner := "(" + (body + closing);
    var s := word + inner;
    assert s[|word|..] == inner && s[..|word|] == word;
    assert forall i :: 0 <= i < |word| ==> s[i] == word[i];
    assert TagNoCase(s, keyword) == Ok((), inner);
    assert inner[..1] == "(" && inner[1..] == body + closing;
    assert closing[..1] == ")" && closing[1..] == rest;
    hide ParseList; hide Sort; hide TagNoCase;
  }

  lemma ListAccess(disjunction: bool, items: seq<Access>, rest: string)
    requires Follows(rest) && items != []
    requires ParseList(PrintList(items) + (")" + rest)) == Ok(SortedAll(items), ")" + rest)
    ensures var a := if disjunction then Or(items) else And(items);
            ParseAccess(Print(a) + rest) == Ok(Sorted(a), rest)
  {
    var word := if disjunction then "Or" else "And";
    var t := word + ("(" + (PrintList(items) + (")" + rest)));
    NodeText(items, rest);
    NodePrinted(word, if disjunction then "or" else "and", PrintList(items), SortedAll(items), rest);
    assert t[0] == word[0];
    assert Sorted(Or(items)) == Or(Sort(SortedAll(items), Leq))
        && Sorted(And(items)) == And(Sort(SortedAll(items), Leq));
    hide *;
    FirstLetter(t, rest);
    AccessUnfolds(t);
  }

  lemma NodeText(items: seq<Access>, rest: string)
    ensures Print(Or(items)) + rest == "Or" + ("(" + (PrintList(items) + (")" + rest)))
    ensures Print(And(items)) + rest == "And" + ("(" + (PrintList(items) + (")" + rest)))
  {
    var body := PrintList(items);
    assert Print(Or(items)) == "Or(" + body + ")" && Print(And(items)) == "And(" + body + ")";
    hide *;
    assert "Or(" == "Or" + "(" && "And(" == "And" + "(";
    Reassociate("Or", body, rest);
    Reassociate("And", body, rest);
  }

  lemma Reassociate(word: string, body: string, rest: string)
    ensures word + "(" + body + ")" + rest == word + ("(" + (body + (")" + rest)))
  {
  }

  lemma {:induction false} ParsePrinted(a: Access, rest: string)
    requires Printable(a) && Follows(rest)
    ensures ParseAccess(Print(a) + rest) == Ok(Sorted(a), rest)
    decreases a, 0
  {
    hide ParseAccess; hide ParseList; hide Print; hide PrintList; hide Readable;
    match a
    case Token(name) => TokenPrinted(name, rest);
    case Always => AlwaysPrinted(rest);
    case And(items) =>
      ListPrinted(items, rest);
      ListAccess(false, items, rest);
    case Or(items) =>
      ListPrinted(items, rest);
      ListAccess(true, items, rest);
  }

  /** A list continues after a comma and a space. */
  lemma ListUnfolds(printed: string, first: Access, more: string, items: seq<Access>, closing: string)
    requires ParseAccess(printed + ("," + (" " + more))) == Ok(first, "," + (" " + more))
    requires ParseList(more) == Ok(items, closing)
    ensures ParseList(printed + ("," + (" " + more))) == Ok([first] + items, closing)
  {
    assert ("," + (" " + more))[1..] == " " + more;
    Spaced(more);
    ListSpaced(more);
    hide ParseAccess;
  }

  lemma OneUnfolds(printed: string, only: Access, closing: string)
    requires ParseAccess(printed + closing) == Ok(only, closing)
    requires closing != "" && closing[0] == ')'
    ensures ParseList(printed + closing) == Ok([only], closing)
  {
    hide ParseAccess;
  }

  lemma ListSpaced(more: string)
    requires ParseAccess(" " + more) == ParseAccess(more)
    ensures ParseList(" " + more) == ParseList(more)
  {
    hide ParseAccess;
  }

  lemma {:induction false} ListPrinted(items: seq<Access>, rest: string)
    requires items != [] && forall i :: 0 <= i < |items| ==> Printable(items[i])
    ensures ParseList(PrintList(items) + (")" + rest)) == Ok(SortedAll(items), ")" + rest)
    decreases items, 1
  {
    var closing := ")" + rest;
    if |items| == 1 {
      ParsePrinted(items[0], closing);
      assert SortedAll(items) == [Sorted(items[0])] + SortedAll([]) == [Sorted(items[0])];
      OneUnfolds(Print(items[0]), Sorted(items[0]), closing);
    } else {
      var tail := items[1..];
      var more := PrintList(tail) + closing;
      ParsePrinted(items[0], "," + (" " + more));
      ListPrinted(tail, rest);
      assert PrintList(items) == Print(items[0]) + ", " + PrintList(tail);
      hide ParseAccess; hide ParseList; hide Print; hide PrintList;
      ListUnfolds(Print(items[0]), Sorted(items[0]), more, SortedAll(tail), closing);
      Commas(Print(items[0]), PrintList(tail), closing);
    }
  }

  lemma Commas(a: string, b: string, closing: string)
    ensures (a + ", " + b) + closing == a + ("," + (" " + (b + closing)))
  {
    assert ", " == "," + " ";
  }

  /** Parsing what was printed gives the expression with every list sorted. */
  lemma RoundTrip(a: Access)
    requires Printable(a)
    ensures Parse(Print(a)) == Some(Sorted(a))
  {
    ParsePrinted(a, "");
    assert Print(a) + "" == Print(a);
  }

  /** Sorting the lists changes nobody's access. */
  lemma {:induction false} SortedGrants(a: Access, view: set<string>)
    ensures Grants(Sorted(a), view) <==> Grants(a, view)
    decreases a
  {
    if a.Or? || a.And? {
      var parts := SortedAll(a.items);
      SortedAllAt(a.items);
      forall i | 0 <= i < |a.items| ensures Grants(parts[i], view) <==> Grants(a.items[i], view) {
        SortedGrants(a.items[i], view);
      }
      SortMembers(parts, Leq);
      SameMembers(Sort(parts, Leq), parts);
      SameGrants(Sort(parts, Leq), parts, view);
      assert SomeGrants(parts, view) <==> SomeGrants(a.items, view);
      assert AllGrant(parts, view) <==> AllGrant(a.items, view);
    }
  }

  lemma {:induction false} SortedAllAt(items: seq<Access>)
    ensures |SortedAll(items)| == |items|
    ensures forall i :: 0 <= i < |items| ==> SortedAll(items)[i] == Sorted(items[i])
  {
    if items != [] {
      SortedAllAt(items[1..]);
    }
  }
}
