/** Naming a thruster after the face of the grid it pushes toward. */
module Thrusters {
  import opened Wrappers
  import opened Strings

  /** A thruster's GridThrustDirection: one of the six unit vectors of the grid, or
      any other vector. */
  datatype Direction = Forward | Backward | Up | Down | Left | Right | Other

  /** The placeholder a thruster template uses for the face letter. */
  const PLACEHOLDER := "{0}"

  /** The template the thruster textbox starts with. */
  const DEFAULT_TEMPLATE := "Thruster {0}"

  function Opposite(d: Direction): Direction
  {
    match d
    case Forward => Backward
    case Backward => Forward
    case Up => Down
    case Down => Up
    case Left => Right
    case Right => Left
    case Other => Other
  }

  /** The initial of a direction's name: the letter of the face it points at. */
  function Initial(d: Direction): char
    requires d != Other
  {
    match d
    case Forward => 'F'
    case Backward => 'B'
    case Up => 'U'
    case Down => 'D'
    case Left => 'L'
    case Right => 'R'
  }

  /** The letter a thruster is named by: the face opposite its thrust direction
      (a thruster thrusting forward sits on the back face), 'X' for any other vector. */
  function FaceLetter(d: Direction): (c: char)
    ensures d != Other ==> c == Initial(Opposite(d))
    ensures d == Other ==> c == 'X'
    ensures c !in PLACEHOLDER
  {
    match d
    case Forward => 'B'
    case Backward => 'F'
    case Up => 'D'
    case Down => 'U'
    case Left => 'R'
    case Right => 'L'
    case Other => 'X'
  }

  /** Different directions get different letters. */
  lemma FaceLetterInjective(d: Direction, e: Direction)
    requires FaceLetter(d) == FaceLetter(e)
    ensures d == e
  {
  }

  /** The new name of a thruster: every "{0}" of the template replaced by the face
      letter, or the letter appended after a space when the template has no "{0}". The
      letter is always in the name, and no placeholder survives a substitution. */
  function ThrusterName(template: string, d: Direction): (r: string)
    ensures FaceLetter(d) in r
    ensures Contains(template, PLACEHOLDER) ==> !Contains(r, PLACEHOLDER)
    ensures !Contains(template, PLACEHOLDER) ==> r == template + " " + [FaceLetter(d)]
  {
    var letter := FaceLetter(d);
    if Contains(template, PLACEHOLDER) then
      ReplaceAllInserts(template, PLACEHOLDER, letter);
      ReplaceAllRemoves(template, PLACEHOLDER, letter);
      ReplaceAll(template, PLACEHOLDER, [letter])
    else
      var r := template + " " + [letter];
      assert r[|r| - 1] == letter;
      r
  }

  /** ApplyThrusterRename: `thrust` is the block's thrust direction, None when the block
      is not a thruster, whose name is then left as it is. */
  function ThrusterRename(name: string, thrust: Option<Direction>, template: string): (r: string)
    ensures thrust.None? ==> r == name
    ensures thrust.Some? ==> r == ThrusterName(template, thrust.value)
  {
    match thrust
    case None => name
    case Some(d) => ThrusterName(template, d)
  }

  /** Text without '{' holds no "{0}". */
  lemma {:induction false} NoBraceNoPlaceholder(a: string)
    requires '{' !in a
    ensures !Contains(a, PLACEHOLDER)
    decreases |a|
  {
    if a != [] {
      assert a[0] != PLACEHOLDER[0];
      NoBraceNoPlaceholder(a[1..]);
    }
  }

  /** "{0}" cannot overlap itself, so text without an occurrence in front of a "{0}" is
      copied unchanged and that "{0}" is replaced. */
  lemma {:induction false} ReplaceBeforePlaceholder(a: string, b: string, rep: string)
    requires !Contains(a, PLACEHOLDER)
    ensures ReplaceAll(a + PLACEHOLDER + b, PLACEHOLDER, rep) == a + rep + ReplaceAll(b, PLACEHOLDER, rep)
    decreases |a|
  {
    var s := a + PLACEHOLDER + b;
    if a == [] {
      assert s == PLACEHOLDER + b;
      assert PLACEHOLDER <= s && s[|PLACEHOLDER|..] == b;
    } else {
      assert !(PLACEHOLDER <= s) by {
        if |a| >= 3 {
          assert s[..3] == a[..3];
          assert !(PLACEHOLDER <= a);
        } else if |a| == 1 {
          assert s[1] == '{';
        } else {
          assert s[2] == '{';
        }
      }
      assert s[1..] == a[1..] + PLACEHOLDER + b;
      ReplaceBeforePlaceholder(a[1..], b, rep);
    }
  }

  /** Pieces without "{0}" joined by "{0}" come out joined by the replacement. */
  lemma {:induction false} ReplacePlaceholderJoin(pieces: seq<string>, rep: string)
    requires forall i :: 0 <= i < |pieces| ==> !Contains(pieces[i], PLACEHOLDER)
    ensures ReplaceAll(Join(pieces, PLACEHOLDER), PLACEHOLDER, rep) == Join(pieces, rep)
  {
    if |pieces| == 1 {
      ReplaceAllAbsent(pieces[0], PLACEHOLDER, rep);
    } else if |pieces| > 1 {
      var rest := pieces[1..];
      assert Join(pieces, PLACEHOLDER) == pieces[0] + PLACEHOLDER + Join(rest, PLACEHOLDER);
      ReplaceBeforePlaceholder(pieces[0], Join(rest, PLACEHOLDER), rep);
      ReplacePlaceholderJoin(rest, rep);
    }
  }

  /** A template with one "{0}" keeps everything around it: the placeholder alone is
      replaced by the letter. */
  lemma {:induction false} ThrusterNameSubstitutes(a: string, b: string, d: Direction)
    requires !Contains(a, PLACEHOLDER) && !Contains(b, PLACEHOLDER)
    ensures ThrusterName(a + PLACEHOLDER + b, d) == a + [FaceLetter(d)] + b
  {
    var letter := [FaceLetter(d)];
    var tail := PLACEHOLDER + b;
    assert a + PLACEHOLDER + b == a + tail;
    assert Contains(a + tail, PLACEHOLDER) by {
      assert PLACEHOLDER <= tail;
      ContainsAfter(a, tail, PLACEHOLDER);
    }
    assert ReplaceAll(a + PLACEHOLDER + b, PLACEHOLDER, letter) == a + letter + b by {
      ReplaceBeforePlaceholder(a, b, letter);
      ReplaceAllAbsent(b, PLACEHOLDER, letter);
    }
  }

  /** Every template with "{0}" is its "{0}"-free pieces joined by "{0}"; it becomes the
      same pieces joined by the letter. */
  lemma {:induction false} ThrusterNameJoin(pieces: seq<string>, d: Direction)
    requires |pieces| >= 2
    requires forall i :: 0 <= i < |pieces| ==> !Contains(pieces[i], PLACEHOLDER)
    ensures ThrusterName(Join(pieces, PLACEHOLDER), d) == Join(pieces, [FaceLetter(d)])
  {
    var tail := PLACEHOLDER + Join(pieces[1..], PLACEHOLDER);
    assert Join(pieces, PLACEHOLDER) == pieces[0] + tail;
    assert PLACEHOLDER <= tail;
    ContainsAfter(pieces[0], tail, PLACEHOLDER);
    ReplacePlaceholderJoin(pieces, [FaceLetter(d)]);
  }

  /** A template with '{' outside its placeholder. */
  lemma BraceTemplateExample()
    ensures ThrusterName("T{x {0}", Forward) == "T{x B"
  {
    assert "T{x {0}" == "T{x " + PLACEHOLDER + "";
    assert !Contains("", PLACEHOLDER);
    assert !Contains("{x ", PLACEHOLDER) by {
      NoBraceNoPlaceholder("x ");
      assert "{x "[1..] == "x " && "{x "[1] != PLACEHOLDER[1];
    }
    assert !Contains("T{x ", PLACEHOLDER) by {
      assert "T{x "[1..] == "{x " && "T{x "[0] != PLACEHOLDER[0];
    }
    ThrusterNameSubstitutes("T{x ", "", Forward);
  }

  /** The default template names a forward-thrusting thruster "Thruster B". */
  lemma DefaultTemplateExample()
    ensures ThrusterName(DEFAULT_TEMPLATE, Forward) == "Thruster B"
  {
    assert DEFAULT_TEMPLATE == "Thruster " + PLACEHOLDER + "";
    assert !Contains("", PLACEHOLDER);
    NoBraceNoPlaceholder("Thruster ");
    ThrusterNameSubstitutes("Thruster ", "", Forward);
  }
}
