/** The whitelist file: one entry a line, wallets by address and the rest by name. */
module Whitelists {
  import opened Common
  import opened TextOps
  import opened Borsh

  datatype Allowable = Twitter(name: string) | Wallet(key: Pubkey)

  /** The text form of public keys, foreign code. */
  datatype KeyText = KeyText(show: Pubkey -> string, parse: string -> Option<Pubkey>)

  /** What it promises: reading undoes writing, and the text is a non-empty word. */
  ghost predicate Lawful(k: KeyText) {
    forall key: Pubkey :: k.parse(k.show(key)) == Some(key) && Word(k.show(key))
  }

  predicate Word(s: string) {
    s != "" && Trimmed(s) && '\n' !in s
  }

  function Entry(k: KeyText, line: string): Allowable {
    if k.parse(line).Some? then Wallet(k.parse(line).value) else Twitter(line)
  }

  /** The entries of a list of lines, blank ones skipped. */
  function EntriesOf(k: KeyText, lines: seq<string>): set<Allowable> {
    if lines == [] then {}
    else
      var line := Trim(lines[|lines| - 1]);
      EntriesOf(k, lines[..|lines| - 1]) + (if line == "" then {} else {Entry(k, line)})
  }

  function Load(k: KeyText, data: string): set<Allowable> {
    EntriesOf(k, Lines(data))
  }

  function Show(k: KeyText, e: Allowable): string {
    match e
    case Wallet(key) => k.show(key)
    case Twitter(name) => name
  }

  function ShowAll(k: KeyText, es: seq<Allowable>): (ls: seq<string>)
    ensures |ls| == |es| && forall i | 0 <= i < |es| :: ls[i] == Show(k, es[i])
  {
    seq(|es|, i requires 0 <= i < |es| => Show(k, es[i]))
  }

  function Content(k: KeyText, es: seq<Allowable>): string {
    Join(ShowAll(k, es))
  }

  /** The list and the file behind it; None is a file that cannot be read as text. */
  class Whitelist {
    var list: set<Allowable>
    var file: Option<string>

    constructor ()
      ensures list == {} && file == None
    {
      list, file := {}, None;
    }

    /** Starts from the file; one that cannot be read is replaced by an empty one, if it can be written. */
    method LoadFile(k: KeyText, writable: bool)
      requires list == {}
      modifies this
      ensures list == if old(file).Some? then Load(k, old(file).value) else {}
      ensures old(file).Some? ==> file == old(file)
      ensures old(file) == None && writable ==> file == Some("")
    {
      if file == None {
        var _ := ToFile(k, writable);
        EmptyContent(k);
      } else {
        InsertLines(k, Lines(file.value));
      }
    }

    method InsertLines(k: KeyText, lines: seq<string>)
      modifies this`list
      ensures list == old(list) + EntriesOf(k, lines)
    {
      for i := 0 to |lines|
        invariant list == old(list) + EntriesOf(k, lines[..i])
      {
        assert lines[..i + 1][..i] == lines[..i];
        var line := Trim(lines[i]);
        if line == "" { continue; }
        var pk := k.parse(line);
        if pk.Some? {
          list := list + {Wallet(pk.value)};
        } else {
          list := list + {Twitter(line)};
        }
      }
      assert lines[..|lines|] == lines;
    }

    /** The entry is in, the file rewritten; it then loads back as the list exactly when all entries are
        canonical. If the file cannot be written nothing is known of it. */
    method Add(k: KeyText, target: Allowable, writable: bool)
      modifies this
      ensures list == old(list) + {target} && Present(target)
      ensures writable ==> Saved(k)
      ensures writable && Lawful(k) ==>
                (Load(k, file.value) == list <==> forall e | e in list :: Canonical(k, e))
    {
      list := list + {target};
      var _ := ToFile(k, writable);
      if writable && Lawful(k) {
        ghost var order :| Lists(order, list) && file == Some(Content(k, order));
        ReloadIff(k, list, order);
      }
    }

    predicate Present(target: Allowable)
      reads this
    {
      target in list
    }

    /** The file holds the entries in some order. */
    ghost predicate Saved(k: KeyText)
      reads this
    {
      exists order :: Lists(order, list) && file == Some(Content(k, order))
    }

    method ToFile(k: KeyText, writable: bool) returns (ok: bool)
      modifies this`file
      ensures ok <==> writable
      ensures ok ==> Saved(k)
    {
      var content := Collected(k);
      if writable {
        file := Some(content);
      } else {
        file := *;
      }
      return writable;
    }

    /** Joins the entries in whatever order the set comes. */
    method Collected(k: KeyText) returns (content: string)
      ensures exists order :: Lists(order, list) && content == Content(k, order)
    {
      ghost var order: seq<Allowable> := [];
      var lines: seq<string> := [];
      var rest := list;
      while rest != {}
        invariant Lists(order, list - rest) && rest <= list
        invariant lines == ShowAll(k, order)
        decreases rest
      {
        var e :| e in rest;
        ListedNext(k, order, list - rest, e);
        assert list - (rest - {e}) == (list - rest) + {e};
        lines := lines + [Show(k, e)];
        rest, order := rest - {e}, order + [e];
      }
      assert list - rest == list;
      content := Join(lines);
    }
  }

  lemma ListedNext(k: KeyText, order: seq<Allowable>, es: set<Allowable>, e: Allowable)
    requires Lists(order, es) && e !in es
    ensures Lists(order + [e], es + {e})
    ensures ShowAll(k, order + [e]) == ShowAll(k, order) + [Show(k, e)]
  {
  }

  lemma EmptyContent(k: KeyText)
    ensures forall order | Lists(order, {}) :: Content(k, order) == ""
  {
    forall order | Lists(order, {}) ensures Content(k, order) == "" {
      assert order == [];
    }
  }

  /** `order` enumerates `es`, each entry once. */
  ghost predicate Lists(order: seq<Allowable>, es: set<Allowable>) {
    && |order| == |es|
    && forall e :: e in order <==> e in es
  }

  // ---------- Theorems ----------

  /** An entry that a file can hold: a wallet, or a trimmed one-line name that is not an address. */
  predicate Canonical(k: KeyText, e: Allowable) {
    e.Twitter? ==> Word(e.name) && k.parse(e.name) == None
  }

  lemma {:induction false} EntriesIff(k: KeyText, lines: seq<string>, e: Allowable)
    ensures e in EntriesOf(k, lines)
       <==> exists i :: 0 <= i < |lines| && Trim(lines[i]) != "" && e == Entry(k, Trim(lines[i]))
  {
    if lines != [] {
      var n := |lines| - 1;
      EntriesIff(k, lines[..n], e);
      if e in EntriesOf(k, lines[..n]) {
        var i :| 0 <= i < n && Trim(lines[..n][i]) != "" && e == Entry(k, Trim(lines[..n][i]));
        assert lines[..n][i] == lines[i];
      }
      if i :| 0 <= i < |lines| && Trim(lines[i]) != "" && e == Entry(k, Trim(lines[i])) {
        if i < n {
          assert lines[..n][i] == lines[i];
        }
      }
    }
  }

  /** Everything `load` produces is canonical. */
  lemma LoadedIsCanonical(k: KeyText, data: string, e: Allowable)
    requires e in Load(k, data)
    ensures Canonical(k, e)
  {
    EntriesIff(k, Lines(data), e);
    var i :| 0 <= i < |Lines(data)| && Trim(Lines(data)[i]) != "" && e == Entry(k, Trim(Lines(data)[i]));
    var line := Lines(data)[i];
    LinesAreSingle(data);
    assert line in Lines(data);
    TrimCharacterized(line);
  }

  lemma ShownLines(k: KeyText, order: seq<Allowable>)
    requires Lawful(k) && forall e | e in order :: Canonical(k, e)
    ensures Lines(Content(k, order)) == ShowAll(k, order)
    ensures forall i | 0 <= i < |order| :: Word(Show(k, order[i])) && Entry(k, Show(k, order[i])) == order[i]
  {
    forall i | 0 <= i < |order|
      ensures Word(Show(k, order[i])) && Entry(k, Show(k, order[i])) == order[i]
    {
      assert order[i] in order;
    }
    LinesOfJoin(ShowAll(k, order));
  }

  /** A whitelist, written in any order, loads back as itself exactly when all its entries are canonical. */
  lemma ReloadIff(k: KeyText, list: set<Allowable>, order: seq<Allowable>)
    requires Lawful(k) && Lists(order, list)
    ensures Load(k, Content(k, order)) == list <==> forall e | e in list :: Canonical(k, e)
  {
    if forall e | e in list :: Canonical(k, e) {
      ShownLines(k, order);
      var lines := ShowAll(k, order);
      forall e ensures e in Load(k, Content(k, order)) <==> e in list {
        EntriesIff(k, lines, e);
        forall i | 0 <= i < |lines| ensures Trim(lines[i]) == lines[i] {
          TrimCharacterized(lines[i]);
        }
        if e in list {
          var i :| 0 <= i < |order| && order[i] == e;
          assert e == Entry(k, Trim(lines[i]));
        }
      }
    }
    if Load(k, Content(k, order)) == list {
      forall e | e in list ensures Canonical(k, e) {
        LoadedIsCanonical(k, Content(k, order), e);
      }
    }
  }

  /** So loading, saving and loading again is loading once. */
  lemma SaveAndReload(k: KeyText, data: string, order: seq<Allowable>)
    requires Lawful(k) && Lists(order, Load(k, data))
    ensures Load(k, Content(k, order)) == Load(k, data)
  {
    forall e | e in Load(k, data) ensures Canonical(k, e) {
      LoadedIsCanonical(k, data, e);
    }
    ReloadIff(k, Load(k, data), order);
  }

  /** What a file held never spoils a reload: after any additions the list survives saving exactly when
      the added entries are canonical. */
  lemma ReloadAfterAddsIff(k: KeyText, data: string, added: set<Allowable>, order: seq<Allowable>)
    requires Lawful(k) && Lists(order, Load(k, data) + added)
    ensures Load(k, Content(k, order)) == Load(k, data) + added <==> forall e | e in added :: Canonical(k, e)
  {
    forall e | e in Load(k, data) ensures Canonical(k, e) {
      LoadedIsCanonical(k, data, e);
    }
    ReloadIff(k, Load(k, data) + added, order);
  }
}
