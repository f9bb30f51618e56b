/** Whitespace normalisation of the lines the UCI front end reads
    (`removeRedundantSpaces`, src/uci.cpp): tabs and carriage returns
    become spaces, every run of blanks shrinks to one space, newlines
    stay, and no space leads, trails or follows a newline. */
module Spaces {

  /** The vertical tab and the form feed, which `std::isspace` also
      counts as whitespace. */
  const VT: char := 11 as char
  const FF: char := 12 as char

  /** `std::isspace` in the "C" locale. */
  predicate IsSpace(c: char)
  {
    c == ' ' || c == '\t' || c == '\n' || c == VT || c == FF || c == '\r'
  }

  /** Whitespace other than a newline: the characters a run of which
      becomes a single space. */
  predicate IsBlank(c: char)
  {
    IsSpace(c) && c != '\n'
  }

  /** The loop's state: the text written so far and `inSpace`, whether
      the last character read was blank. */
  datatype Scan = Scan(text: string, inSpace: bool)

  /** One turn of the loop on the character `c`. */
  function Step(s: Scan, c: char): Scan
  {
    var current := if c == '\r' || c == '\t' then ' ' else c;
    if IsSpace(current) then
      if current == '\n' then Scan(s.text + "\n", false)
      else if !s.inSpace then
        var keep := |s.text| > 0 && s.text[|s.text| - 1] != '\n' && s.text[|s.text| - 1] != ' ';
        Scan(if keep then s.text + " " else s.text, true)
      else s
    else Scan(s.text + [current], false)
  }

  /** The text with its blank characters removed: what the normalisation
      must keep, in order. */
  function Strip(t: string): string
  {
    if |t| == 0 then []
    else Strip(t[..|t| - 1]) + (if IsBlank(t[|t| - 1]) then [] else [t[|t| - 1]])
  }

  /** Every blank is a plain space, none leads, and none follows a space
      or a newline. */
  predicate Tidy(t: string)
  {
    (forall i :: 0 <= i < |t| && IsBlank(t[i]) ==> t[i] == ' ') &&
    (|t| > 0 ==> t[0] != ' ') &&
    (forall i :: 0 < i < |t| && t[i] == ' ' ==> t[i - 1] != ' ' && t[i - 1] != '\n')
  }

  /** A tidy text that does not end in a space: the shape of every output. */
  predicate Normal(t: string)
  {
    Tidy(t) && (|t| > 0 ==> t[|t| - 1] != ' ')
  }

  lemma StripSnoc(t: string, c: char)
    ensures Strip(t + [c]) == Strip(t) + (if IsBlank(c) then [] else [c])
  {
    assert (t + [c])[..|t|] == t;
  }

  /** Appending a non-blank, or a space after a character that is
      neither a space nor a newline, keeps a text tidy. */
  lemma TidySnoc(t: string, c: char)
    requires Tidy(t)
    requires IsBlank(c) ==> c == ' '
    requires c == ' ' ==> |t| > 0 && t[|t| - 1] != ' ' && t[|t| - 1] != '\n'
    ensures Tidy(t + [c])
  {
    var u := t + [c];
    assert forall i :: 0 <= i < |t| ==> u[i] == t[i];
    assert u[|t|] == c;
  }

  /** One turn keeps the loop's text tidy, drops exactly a blank, and
      leaves a trailing space only while in a blank run. */
  lemma StepKeeps(p: Scan, c: char)
    requires Tidy(p.text)
    requires !p.inSpace && |p.text| > 0 ==> p.text[|p.text| - 1] != ' '
    ensures var s := Step(p, c);
      Tidy(s.text) && Strip(s.text) == Strip(p.text) + (if IsBlank(c) then [] else [c]) &&
      (!s.inSpace && |s.text| > 0 ==> s.text[|s.text| - 1] != ' ')
  {
    var t := p.text;
    if c == '\n' {
      assert Step(p, c) == Scan(t + [c], false);
      TidySnoc(t, c);
      StripSnoc(t, c);
    } else if !IsBlank(c) {
      assert Step(p, c) == Scan(t + [c], false);
      TidySnoc(t, c);
      StripSnoc(t, c);
    } else if !p.inSpace && |t| > 0 && t[|t| - 1] != '\n' && t[|t| - 1] != ' ' {
      assert Step(p, c) == Scan(t + [' '], true);
      TidySnoc(t, ' ');
      StripSnoc(t, ' ');
    } else {
      assert Step(p, c).text == t;
    }
  }

  /** The loop over the whole input. Its text is always tidy, has lost
      exactly the blanks, and ends in a space only while blanks are being
      read. */
  function ScanAll(input: string): (s: Scan)
    ensures Tidy(s.text) && Strip(s.text) == Strip(input)
    ensures !s.inSpace && |s.text| > 0 ==> s.text[|s.text| - 1] != ' '
  {
    if |input| == 0 then Scan("", false)
    else
      var p := ScanAll(input[..|input| - 1]);
      var c := input[|input| - 1];
      StripSnoc(input[..|input| - 1], c);
      assert input == input[..|input| - 1] + [c];
      StepKeeps(p, c);
      Step(p, c)
  }

  /** The normalised text: the loop's text without a trailing space. */
  function Collapse(input: string): (r: string)
    ensures Normal(r) && Strip(r) == Strip(input)
  {
    var t := ScanAll(input).text;
    if |t| > 0 && t[|t| - 1] == ' ' then
      StripSnoc(t[..|t| - 1], ' ');
      assert t == t[..|t| - 1] + [' '];
      t[..|t| - 1]
    else t
  }

  /** `removeRedundantSpaces`: the source's loop over the characters. */
  method RemoveRedundantSpaces(input: string) returns (r: string)
    ensures r == Collapse(input)
  {
    var result := "";
    var inSpace := false;
    var i := 0;
    while i < |input|
      invariant 0 <= i <= |input|
      invariant ScanAll(input[..i]) == Scan(result, inSpace)
    {
      assert input[..i + 1][..i] == input[..i];
      assert ScanAll(input[..i + 1]) == Step(Scan(result, inSpace), input[i]);
      var current := input[i];
      if current == '\r' || current == '\t' {
        current := ' ';
      }
      if IsSpace(current) {
        if current == '\n' {
          result := result + "\n";
          inSpace := false;
        } else if !inSpace {
          if |result| > 0 && result[|result| - 1] != '\n' && result[|result| - 1] != ' ' {
            result := result + " ";
          }
          inSpace := true;
        }
      } else {
        result := result + [current];
        inSpace := false;
      }
      i := i + 1;
    }
    assert input[..|input|] == input;
    if |result| > 0 && result[|result| - 1] == ' ' {
      result := result[..|result| - 1];
    }
    r := result;
  }

  /** On a tidy text the loop copies every character, and is in a blank
      run exactly when the text ends in a space. */
  lemma {:induction false} ScanTidy(t: string)
    requires Tidy(t)
    ensures ScanAll(t) == Scan(t, |t| > 0 && t[|t| - 1] == ' ')
  {
    if |t| > 0 {
      var p := t[..|t| - 1];
      assert Tidy(p);
      ScanTidy(p);
      assert t == p + [t[|t| - 1]];
    }
  }

  /** The texts the normalisation leaves alone are exactly the normal ones. */
  lemma FixedIffNormal(t: string)
    ensures Collapse(t) == t <==> Normal(t)
  {
    if Normal(t) {
      ScanTidy(t);
    }
  }

  /** Normalising twice is normalising once. */
  lemma CollapseIdempotent(input: string)
    ensures Collapse(Collapse(input)) == Collapse(input)
  {
    FixedIffNormal(Collapse(input));
  }
}

/** The UCI command handling of src/uci.cpp that is pure text work:
    reading `setoption` arguments, the option line `uci` prints for each
    option, removing combo values, and skipping unknown commands. */
module Uci {
  import opened Wrappers
  import Spaces

  /** A word as `operator>>` reads it: non-empty, without whitespace. */
  predicate Word(w: string)
  {
    |w| > 0 && forall i :: 0 <= i < |w| ==> !Spaces.IsSpace(w[i])
  }

  function Emit(cur: string): seq<string>
  {
    if cur == [] then [] else [cur]
  }

  /** The words read from `s` when the word `cur` has been started. */
  function Tokens(s: string, cur: string): (ws: seq<string>)
    requires forall i :: 0 <= i < |cur| ==> !Spaces.IsSpace(cur[i])
    ensures forall i :: 0 <= i < |ws| ==> Word(ws[i])
    decreases |s|
  {
    if |s| == 0 then Emit(cur)
    else if Spaces.IsSpace(s[0]) then Emit(cur) + Tokens(s[1..], [])
    else Tokens(s[1..], cur + [s[0]])
  }

  /** The successive words `iss >> word` reads from a string. */
  function Words(s: string): seq<string>
  {
    Tokens(s, [])
  }

  lemma {:induction false} TokensSplit(x: string, y: string, cur: string)
    requires forall i :: 0 <= i < |cur| ==> !Spaces.IsSpace(cur[i])
    ensures Tokens(x + " " + y, cur) == Tokens(x, cur) + Tokens(y, [])
    decreases |x|
  {
    if |x| == 0 {
      assert x + " " + y == [' '] + y;
      assert (x + " " + y)[1..] == y;
    } else {
      assert (x + " " + y)[1..] == x[1..] + " " + y;
      if Spaces.IsSpace(x[0]) {
        TokensSplit(x[1..], y, []);
      } else {
        TokensSplit(x[1..], y, cur + [x[0]]);
      }
    }
  }

  /** A space separates words: the words of `x + " " + y` are those of
      `x` followed by those of `y`. */
  lemma WordsSplit(x: string, y: string)
    ensures Words(x + " " + y) == Words(x) + Words(y)
  {
    TokensSplit(x, y, []);
  }

  lemma {:induction false} TokensOfRun(w: string, cur: string)
    requires forall i :: 0 <= i < |cur| ==> !Spaces.IsSpace(cur[i])
    requires forall i :: 0 <= i < |w| ==> !Spaces.IsSpace(w[i])
    ensures Tokens(w, cur) == Emit(cur + w)
    decreases |w|
  {
    if |w| == 0 {
      assert cur + w == cur;
    } else {
      TokensOfRun(w[1..], cur + [w[0]]);
      assert cur + [w[0]] + w[1..] == cur + w;
    }
  }

  /** A single word reads back as itself. */
  lemma WordsOfWord(w: string)
    requires Word(w)
    ensures Words(w) == [w]
  {
    TokensOfRun(w, []);
    assert [] + w == w;
  }

  // Reading `setoption` arguments

  /** `std::tolower` of an unsigned char in the "C" locale. */
  function Lower(c: char): char
  {
    if 'A' <= c <= 'Z' then (c as int + 32) as char else c
  }

  function LowerAll(w: string): string
  {
    seq(|w|, i requires 0 <= i < |w| => Lower(w[i]))
  }

  /** A word `setoption` takes as a keyword, in any letter case. */
  predicate IsKeyword(w: string)
  {
    LowerAll(w) == "name" || LowerAll(w) == "value"
  }

  /** The parse state: `section` holds the last keyword as it was
      written, and the name and value gathered so far. */
  datatype Reading = Reading(section: string, name: string, value: string)

  /** Appends a word to a gathered text, with a space unless it is empty. */
  function Join(acc: string, w: string): string
  {
    if acc == [] then w else acc + " " + w
  }

  /** One word of the loop. A keyword only changes the section; other
      words are gathered when the section is spelled in lower case. */
  function Feed(r: Reading, w: string): Reading
  {
    if IsKeyword(w) then r.(section := w)
    else if r.section == "name" then r.(name := Join(r.name, w))
    else if r.section == "value" then r.(value := Join(r.value, w))
    else r
  }

  /** The loop over a list of words, from the state `r`. */
  function Fold(r: Reading, ws: seq<string>): Reading
  {
    if |ws| == 0 then r else Feed(Fold(r, ws[..|ws| - 1]), ws[|ws| - 1])
  }

  /** The name and value `handleSetOptionCommand` reads from its arguments. */
  function ParseSetOption(args: string): Reading
  {
    Fold(Reading("", "", ""), Words(args))
  }

  /** Words gathered onto a text, one `Join` each. */
  function JoinOnto(acc: string, ws: seq<string>): string
  {
    if |ws| == 0 then acc else Join(JoinOnto(acc, ws[..|ws| - 1]), ws[|ws| - 1])
  }

  /** Words joined by single spaces. */
  function Joined(ws: seq<string>): string
  {
    JoinOnto("", ws)
  }

  lemma {:induction false} FoldAppend(r: Reading, a: seq<string>, b: seq<string>)
    ensures Fold(r, a + b) == Fold(Fold(r, a), b)
    decreases |b|
  {
    if |b| == 0 {
      assert a + b == a;
    } else {
      FoldAppend(r, a, b[..|b| - 1]);
      assert (a + b)[..|a + b| - 1] == a + b[..|b| - 1];
    }
  }

  /** In the name section, words that are not keywords all go to the name. */
  lemma {:induction false} GatherName(r: Reading, ws: seq<string>)
    requires r.section == "name"
    requires forall i :: 0 <= i < |ws| ==> !IsKeyword(ws[i])
    ensures Fold(r, ws) == r.(name := JoinOnto(r.name, ws))
  {
    if |ws| > 0 {
      GatherName(r, ws[..|ws| - 1]);
    }
  }

  /** In the value section, words that are not keywords all go to the value. */
  lemma {:induction false} GatherValue(r: Reading, ws: seq<string>)
    requires r.section == "value"
    requires forall i :: 0 <= i < |ws| ==> !IsKeyword(ws[i])
    ensures Fold(r, ws) == r.(value := JoinOnto(r.value, ws))
  {
    if |ws| > 0 {
      GatherValue(r, ws[..|ws| - 1]);
    }
  }

  /** A section keyword spelled other than in lower case is recognised,
      but nothing after it is gathered. */
  lemma {:induction false} OddCaseGathersNothing(r: Reading, k: string, ws: seq<string>)
    requires IsKeyword(k) && k != "name" && k != "value"
    requires forall i :: 0 <= i < |ws| ==> !IsKeyword(ws[i])
    ensures Fold(r, [k] + ws) == Reading(k, r.name, r.value)
    decreases |ws|
  {
    if |ws| == 0 {
      assert Fold(r, [k]) == Feed(Fold(r, []), k);
    } else {
      OddCaseGathersNothing(r, k, ws[..|ws| - 1]);
      assert ([k] + ws)[..|[k] + ws| - 1] == [k] + ws[..|ws| - 1];
    }
  }

  lemma {:induction false} JoinedNonEmpty(ws: seq<string>)
    requires forall i :: 0 <= i < |ws| ==> Word(ws[i])
    ensures |ws| > 0 <==> Joined(ws) != []
  {
    if |ws| > 0 {
      JoinedNonEmpty(ws[..|ws| - 1]);
    }
  }

  /** Reading back words joined by single spaces gives the words. */
  lemma {:induction false} WordsOfJoined(ws: seq<string>)
    requires forall i :: 0 <= i < |ws| ==> Word(ws[i])
    ensures Words(Joined(ws)) == ws
  {
    if |ws| > 0 {
      var p := ws[..|ws| - 1];
      var w := ws[|ws| - 1];
      JoinedNonEmpty(p);
      WordsOfWord(w);
      if |p| == 0 {
        assert ws == [w];
      } else {
        WordsOfJoined(p);
        WordsSplit(Joined(p), w);
        assert ws == p + [w];
      }
    }
  }

  /** The words of `name N value V`. */
  lemma SetOptionWords(n: string, v: string)
    ensures Words("name " + n + " value " + v) == ["name"] + Words(n) + ["value"] + Words(v)
  {
    var a := "value" + " " + v;
    var b := n + " " + a;
    WordsCons("value", v);
    WordsSplit(n, a);
    WordsCons("name", b);
    assert "name " + n + " value " + v == "name" + " " + b;
  }

  /** The command a GUI sends, `name N value V`, is read as the words of
      N and of V joined by single spaces, when neither holds a keyword. */
  lemma SetOptionRoundTrip(n: string, v: string)
    requires forall i :: 0 <= i < |Words(n)| ==> !IsKeyword(Words(n)[i])
    requires forall i :: 0 <= i < |Words(v)| ==> !IsKeyword(Words(v)[i])
    ensures ParseSetOption("name " + n + " value " + v) == Reading("value", Joined(Words(n)), Joined(Words(v)))
  {
    SetOptionWords(n, v);
    var r0 := Reading("", "", "");
    var r1 := Reading("name", "", "");
    var r2 := Reading("name", Joined(Words(n)), "");
    var r3 := Reading("value", Joined(Words(n)), "");
    assert LowerAll("name") == "name";
    assert LowerAll("value") == "value";
    assert Fold(r0, ["name"]) == Feed(Fold(r0, []), "name") == r1;
    FoldAppend(r0, ["name"], Words(n));
    GatherName(r1, Words(n));
    FoldAppend(r0, ["name"] + Words(n), ["value"]);
    assert Fold(r2, ["value"]) == Feed(Fold(r2, []), "value") == r3;
    FoldAppend(r0, ["name"] + Words(n) + ["value"], Words(v));
    GatherValue(r3, Words(v));
  }

  // Options

  /** `UCIOptionType`. */
  datatype OptionType = Check | Spin | Combo | Button | String

  /** `getUciOptionTypeAsString`. The enumeration is closed here, so its
      "unknown" fallback cannot be reached. */
  function TypeName(t: OptionType): (s: string)
    ensures Word(s) && s != "unknown"
  {
    match t
    case Check => "check"
    case Spin => "spin"
    case Combo => "combo"
    case Button => "button"
    case String => "string"
  }

  /** Distinct types print distinct names, so the name identifies the type. */
  lemma TypeNameInjective(a: OptionType, b: OptionType)
    ensures TypeName(a) == TypeName(b) <==> a == b
  {
  }

  /** `UCIOption`: the combo values are `vars`. */
  datatype UciOption = UciOption(
    name: string, optionType: OptionType, value: string,
    defaultValue: string, minValue: string, maxValue: string, vars: seq<string>)

  /** A labelled field of the option line, present only when non-empty. */
  function Field(tag: string, v: string): string
  {
    if v == [] then [] else " " + tag + " " + v
  }

  /** The ` var v` parts, in order. */
  function VarText(vs: seq<string>): string
  {
    if |vs| == 0 then [] else VarText(vs[..|vs| - 1]) + " " + "var" + " " + vs[|vs| - 1]
  }

  /** `UCIOption::toString`. */
  function ToString(o: UciOption): string
  {
    "option" + " " + "name" + " " + o.name + " " + "type" + " " + TypeName(o.optionType)
      + Field("default", o.defaultValue) + Field("min", o.minValue) + Field("max", o.maxValue)
      + VarText(o.vars)
  }

  /** The words of a labelled field: the label and the words of its value. */
  function FieldWords(tag: string, v: string): seq<string>
  {
    if v == [] then [] else [tag] + Words(v)
  }

  function VarWords(vs: seq<string>): seq<string>
  {
    if |vs| == 0 then [] else VarWords(vs[..|vs| - 1]) + ["var"] + Words(vs[|vs| - 1])
  }

  /** The words a GUI reads from an option line, field by field. */
  function OptionWords(o: UciOption): seq<string>
  {
    ["option", "name"] + Words(o.name) + ["type", TypeName(o.optionType)]
      + FieldWords("default", o.defaultValue) + FieldWords("min", o.minValue) + FieldWords("max", o.maxValue)
      + VarWords(o.vars)
  }

  lemma WordsLabelled(x: string, tag: string, v: string)
    requires Word(tag)
    ensures Words(x + " " + tag + " " + v) == Words(x) + [tag] + Words(v)
  {
    assert x + " " + tag + " " + v == x + " " + (tag + " " + v);
    WordsSplit(x, tag + " " + v);
    WordsSplit(tag, v);
    WordsOfWord(tag);
  }

  lemma WordsField(x: string, tag: string, v: string)
    requires Word(tag)
    ensures Words(x + Field(tag, v)) == Words(x) + FieldWords(tag, v)
  {
    if v == [] {
      assert x + Field(tag, v) == x;
    } else {
      assert x + Field(tag, v) == x + " " + tag + " " + v;
      WordsLabelled(x, tag, v);
    }
  }

  lemma {:induction false} WordsVars(x: string, vs: seq<string>)
    ensures Words(x + VarText(vs)) == Words(x) + VarWords(vs)
  {
    if |vs| == 0 {
      assert x + VarText(vs) == x;
    } else {
      var p := vs[..|vs| - 1];
      WordsVars(x, p);
      assert x + VarText(vs) == (x + VarText(p)) + " " + "var" + " " + vs[|vs| - 1];
      WordsLabelled(x + VarText(p), "var", vs[|vs| - 1]);
    }
  }

  /** A word followed by a space reads as that word, then the rest. */
  lemma WordsCons(w: string, y: string)
    requires Word(w)
    ensures Words(w + " " + y) == [w] + Words(y)
  {
    WordsSplit(w, y);
    WordsOfWord(w);
  }

  /** The words of the fixed head of an option line. */
  lemma HeadWords(name: string, t: string)
    requires Word(t)
    ensures Words("option" + " " + "name" + " " + name + " " + "type" + " " + t) == ["option", "name"] + Words(name) + ["type", t]
  {
    var a := "type" + " " + t;
    var b := name + " " + a;
    var c := "name" + " " + b;
    WordsOfWord(t);
    WordsCons("type", t);
    WordsSplit(name, a);
    WordsCons("name", b);
    WordsCons("option", c);
    assert "option" + " " + "name" + " " + name + " " + "type" + " " + t == "option" + " " + c;
  }

  /** An option line splits into `option name`, the name's words, `type`
      and the type, then each non-empty of default, min and max with its
      label, then `var` and each combo value, in order. */
  lemma ToStringWords(o: UciOption)
    ensures Words(ToString(o)) == OptionWords(o)
  {
    var t := TypeName(o.optionType);
    var head := "option" + " " + "name" + " " + o.name + " " + "type" + " " + t;
    HeadWords(o.name, t);
    var h1 := head + Field("default", o.defaultValue);
    var h2 := h1 + Field("min", o.minValue);
    var h3 := h2 + Field("max", o.maxValue);
    WordsField(head, "default", o.defaultValue);
    WordsField(h1, "min", o.minValue);
    WordsField(h2, "max", o.maxValue);
    WordsVars(h3, o.vars);
    assert ToString(o) == h3 + VarText(o.vars);
  }

  /** `removeVar`: every occurrence of the value is dropped. */
  function RemoveVar(vs: seq<string>, v: string): seq<string>
  {
    if |vs| == 0 then []
    else RemoveVar(vs[..|vs| - 1], v) + (if vs[|vs| - 1] == v then [] else [vs[|vs| - 1]])
  }

  /** The values kept are those of the list with every copy of the
      removed value gone, and every copy of each other value kept. */
  lemma {:induction false} RemoveVarContents(vs: seq<string>, v: string)
    ensures multiset(RemoveVar(vs, v)) == multiset(vs)[v := 0]
  {
    if |vs| > 0 {
      var p := vs[..|vs| - 1];
      RemoveVarContents(p, v);
      assert vs == p + [vs[|vs| - 1]];
    }
  }

  /** Removal works piece by piece, so the values kept stay in order. */
  lemma {:induction false} RemoveVarAppend(a: seq<string>, b: seq<string>, v: string)
    ensures RemoveVar(a + b, v) == RemoveVar(a, v) + RemoveVar(b, v)
    decreases |b|
  {
    if |b| == 0 {
      assert a + b == a;
    } else {
      var p := b[..|b| - 1];
      var w := b[|b| - 1];
      var kept := if w == v then [] else [w];
      RemoveVarAppend(a, p, v);
      assert (a + b)[..|a + b| - 1] == a + p;
      assert RemoveVar(a + b, v) == RemoveVar(a + p, v) + kept;
      assert RemoveVar(b, v) == RemoveVar(p, v) + kept;
    }
  }

  /** Removing a value that is not there changes nothing. */
  lemma {:induction false} RemoveAbsentVar(vs: seq<string>, v: string)
    requires v !in vs
    ensures RemoveVar(vs, v) == vs
  {
    if |vs| > 0 {
      RemoveAbsentVar(vs[..|vs| - 1], v);
    }
  }

  /** Removing the same value twice is removing it once. */
  lemma RemoveVarIdempotent(vs: seq<string>, v: string)
    ensures RemoveVar(RemoveVar(vs, v), v) == RemoveVar(vs, v)
  {
    var r := RemoveVar(vs, v);
    RemoveVarContents(vs, v);
    assert multiset(r)[v] == 0;
    RemoveAbsentVar(r, v);
  }

  // Handling `setoption`

  /** The options after a `setoption` and the error it reports, if any. */
  datatype Reply = Reply(options: map<string, UciOption>, error: Option<string>)

  /** `handleSetOptionCommand` after setup: an empty name, an unknown
      option, or a missing value for anything but a button is an error
      that changes nothing; a button with no value becomes "false" when it
      was "true" and "true" otherwise, the empty value it is built with
      included; otherwise the value is stored. */
  function SetOption(options: map<string, UciOption>, args: string): (r: Reply)
    ensures var p := ParseSetOption(args);
      (r.error == None <==> p.name != [] && p.name in options && (p.value != [] || options[p.name].optionType == Button)) &&
      (r.error != None ==> r.options == options) &&
      (r.error == None ==>
        r.options.Keys == options.Keys &&
        (forall k :: k in options && k != p.name ==> r.options[k] == options[k]) &&
        r.options[p.name] == options[p.name].(value := r.options[p.name].value) &&
        (p.value != [] ==> r.options[p.name].value == p.value) &&
        (p.value == [] ==> r.options[p.name].value in {"true", "false"} && r.options[p.name].value != options[p.name].value &&
                           (r.options[p.name].value == "false" <==> options[p.name].value == "true")))
  {
    var p := ParseSetOption(args);
    if p.name == [] then Reply(options, Some("ERROR: No option name provided."))
    else if p.name !in options then Reply(options, Some("ERROR: Option " + p.name + " does not exist."))
    else
      var o := options[p.name];
      if p.value == [] then
        if o.optionType == Button then
          Reply(options[p.name := o.(value := if o.value == "true" then "false" else "true")], None)
        else Reply(options, Some("ERROR: No option value provided."))
      else Reply(options[p.name := o.(value := p.value)], None)
  }

  /** Pressing a button twice restores a value that was "true" or "false". */
  lemma ButtonTwice(options: map<string, UciOption>, args: string)
    requires var p := ParseSetOption(args);
      p.name in options && p.value == [] && options[p.name].optionType == Button &&
      options[p.name].value in {"true", "false"}
    ensures SetOption(SetOption(options, args).options, args).options == options
  {
    var p := ParseSetOption(args);
    var once := SetOption(options, args).options;
    assert once[p.name].optionType == Button;
  }

  // Dispatching commands

  /** The commands the engine has a handler for. */
  const COMMANDS: set<string> :=
    {"uci", "debug", "isready", "setoption", "ucinewgame", "position", "go", "stop", "ponderhit", "quit"}

  /** Where `processCommand` ends up: a handler with its arguments,
      `register` (ignored), or an unknown command with nothing after it. */
  datatype Dispatch = Handle(command: string, args: string) | Ignore | Unknown(command: string)

  /** The index of the first space, or the length when there is none. */
  function FirstSpace(s: string): (k: nat)
    ensures k <= |s| && (k < |s| ==> s[k] == ' ') && forall i :: 0 <= i < k ==> s[i] != ' '
  {
    if |s| == 0 || s[0] == ' ' then 0 else 1 + FirstSpace(s[1..])
  }

  /** `processCommand`: an unknown command with arguments is dropped and
      the first space-separated word of the arguments is taken as the
      command, with the rest as its arguments. A handled command's
      arguments are a tail of the original ones, strictly shorter when a
      word was skipped; the recursion ends because the arguments shrink. */
  function ProcessCommand(command: string, args: string): (r: Dispatch)
    ensures command in COMMANDS ==> r == Handle(command, args)
    ensures command == "register" ==> r == Ignore
    ensures r.Handle? ==> r.command in COMMANDS && |r.args| <= |args| && r.args == args[|args| - |r.args|..]
    ensures r.Handle? && r.command != command ==> |r.args| < |args|
    decreases |args|
  {
    if command in COMMANDS then Handle(command, args)
    else if command == "register" then Ignore
    else if args == "" || args == " " || args == "\n" then Unknown(command)
    else
      var k := FirstSpace(args);
      if k < |args| then
        var r := ProcessCommand(args[..k], args[k + 1..]);
        assert r.Handle? ==> args[k + 1..][|args[k + 1..]| - |r.args|..] == args[|args| - |r.args|..];
        r
      else ProcessCommand(args, "")
  }

  /** An unknown command followed by a known one is skipped: the known
      command runs on the rest of the line. */
  lemma SkipsUnknown(command: string, w: string, rest: string)
    requires command !in COMMANDS && command != "register"
    requires w in COMMANDS && ' ' !in w
    ensures ProcessCommand(command, w + " " + rest) == Handle(w, rest)
  {
    var args := w + " " + rest;
    assert args[|w|] == ' ';
    assert forall i :: 0 <= i < |w| ==> args[i] == w[i] && w[i] != ' ';
    assert FirstSpace(args) == |w|;
    assert args[..|w|] == w && args[|w| + 1..] == rest;
  }
}
