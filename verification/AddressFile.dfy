/** The list of addresses read from a file that may include other files: library/meids_init.c. What a file says, and
    what it means. */
module AddressFile {

  const OPEN_NO_FLAGS := 0x00
  const OPEN_PCI := 0x01
  const OPEN_USB := 0x02
  const OPEN_LOCAL := 0x03

  /** The commands of a file, one for each line; `target` is what opening the command as a file would find. */
  datatype File = Missing | File(lines: seq<Line>)
  datatype Line = Line(command: string, target: File)

  datatype Entry = Entry(addr: string, flag: int)

  predicate StartsWith(s: string, prefix: string) {
    prefix <= s
  }

  datatype Mode = Mode(flag: int, nested: bool)

  const PLAIN_MODE := Mode(OPEN_NO_FLAGS, false)

  datatype Meaning = Nothing | Section(mode: Mode) | Address

  function MeaningOf(command: string): Meaning {
    if command == "" || command[0] == '#' then Nothing
    else if StartsWith(command, "local:") then Section(Mode(OPEN_LOCAL, false))
    else if StartsWith(command, "pci:") then Section(Mode(OPEN_PCI, false))
    else if StartsWith(command, "usb:") then Section(Mode(OPEN_USB, false))
    else if StartsWith(command, "detect:") then Section(Mode(OPEN_NO_FLAGS, true))
    else Address
  }

  /** All addresses of a file with their flags, the included files in place. */
  function Flatten(lines: seq<Line>, mode: Mode): seq<Entry>
    decreases lines
  {
    if lines == [] then []
    else
      match MeaningOf(lines[0].command)
      case Nothing => Flatten(lines[1..], mode)
      case Section(m) => Flatten(lines[1..], m)
      case Address =>
        (if !mode.nested then [Entry(lines[0].command, mode.flag)]
         else if lines[0].target.Missing? then [] else Flatten(lines[0].target.lines, PLAIN_MODE))
        + Flatten(lines[1..], mode)
  }

  // Searching and removing duplicates.

  /** SearchInit: the place of the address, counted from 1; 0 if it is empty or not on the list. */
  function Search(addr: string, list: seq<Entry>): (r: nat)
    ensures r <= |list|
  {
    if list == [] || addr == "" then 0
    else if list[0].addr == addr then 1
    else
      var r := Search(addr, list[1..]);
      if r > 0 then r + 1 else 0
  }

  lemma {:induction false} SearchIsFirst(addr: string, list: seq<Entry>)
    ensures Search(addr, list) == 0 <==> addr == "" || forall k :: 0 <= k < |list| ==> list[k].addr != addr
    ensures Search(addr, list) > 0 ==>
            Search(addr, list) <= |list| && list[Search(addr, list) - 1].addr == addr
            && forall k :: 0 <= k < Search(addr, list) - 1 ==> list[k].addr != addr
  {
    if list == [] {
    } else {
      SearchIsFirst(addr, list[1..]);
      if Search(addr, list) == 0 {
        forall k | 0 <= k < |list| ensures addr == "" || list[k].addr != addr {
          assert k > 0 ==> list[k] == list[1..][k - 1];
        }
      } else {
        forall k | 0 <= k < Search(addr, list) - 1 ensures list[k].addr != addr {
          assert k > 0 ==> list[k] == list[1..][k - 1];
        }
      }
    }
  }

  function Addrs(list: seq<Entry>): set<string> {
    set e | e in list :: e.addr
  }

  /** The entries that are kept when the addresses `seen` are on the list already. */
  function Unseen(list: seq<Entry>, seen: set<string>): seq<Entry> {
    if list == [] then []
    else if list[0].addr != "" && list[0].addr in seen then Unseen(list[1..], seen)
    else [list[0]] + Unseen(list[1..], seen + {list[0].addr})
  }

  function Dedup(list: seq<Entry>): seq<Entry> {
    Unseen(list, {})
  }

  lemma {:induction false} UnseenConcat(a: seq<Entry>, b: seq<Entry>, seen: set<string>)
    ensures Unseen(a + b, seen) == Unseen(a, seen) + Unseen(b, seen + Addrs(a))
  {
    if a == [] {
      assert a + b == b && seen + Addrs(a) == seen;
    } else {
      assert (a + b)[1..] == a[1..] + b;
      assert Addrs(a) == {a[0].addr} + Addrs(a[1..]) by {
        AddrsCons(a);
      }
      if a[0].addr != "" && a[0].addr in seen {
        UnseenConcat(a[1..], b, seen);
        assert seen + Addrs(a) == seen + Addrs(a[1..]);
      } else {
        UnseenConcat(a[1..], b, seen + {a[0].addr});
        assert seen + Addrs(a) == seen + {a[0].addr} + Addrs(a[1..]);
      }
    }
  }

  lemma AddrsCons(a: seq<Entry>)
    requires a != []
    ensures Addrs(a) == {a[0].addr} + Addrs(a[1..])
  {
  }

  lemma {:induction false} AddrsOfUnseen(list: seq<Entry>, seen: set<string>)
    ensures Addrs(Unseen(list, seen)) <= Addrs(list) <= Addrs(Unseen(list, seen)) + seen
  {
    if list == [] {
    } else {
      AddrsCons(list);
      if list[0].addr != "" && list[0].addr in seen {
        AddrsOfUnseen(list[1..], seen);
      } else {
        AddrsOfUnseen(list[1..], seen + {list[0].addr});
        var r := Unseen(list, seen);
        AddrsCons(r);
        assert r[1..] == Unseen(list[1..], seen + {list[0].addr});
      }
    }
  }

  /** Removing duplicates early makes no difference. */
  lemma {:induction false} UnseenTwice(list: seq<Entry>, first: set<string>, seen: set<string>)
    requires first <= seen
    ensures Unseen(Unseen(list, first), seen) == Unseen(list, seen)
  {
    if list == [] {
    } else {
      var x := list[0];
      if x.addr != "" && x.addr in first {
        UnseenTwice(list[1..], first, seen);
      } else {
        var after := Unseen(list[1..], first + {x.addr});
        assert ([x] + after)[0] == x && ([x] + after)[1..] == after;
        if x.addr != "" && x.addr in seen {
          UnseenTwice(list[1..], first + {x.addr}, seen);
        } else {
          UnseenTwice(list[1..], first + {x.addr}, seen + {x.addr});
        }
      }
    }
  }

  // What CreateInit collects: an included file comes without duplicates.

  function Collect(lines: seq<Line>, mode: Mode): seq<Entry>
    decreases lines
  {
    if lines == [] then []
    else
      match MeaningOf(lines[0].command)
      case Nothing => Collect(lines[1..], mode)
      case Section(m) => Collect(lines[1..], m)
      case Address =>
        (if !mode.nested then [Entry(lines[0].command, mode.flag)]
         else if lines[0].target.Missing? then [] else Dedup(Collect(lines[0].target.lines, PLAIN_MODE)))
        + Collect(lines[1..], mode)
  }

  /** The clean-up at the inner levels changes neither what is kept nor which flag it has. */
  lemma {:induction false} NestedCleaning(lines: seq<Line>, mode: Mode, seen: set<string>)
    ensures Unseen(Collect(lines, mode), seen) == Unseen(Flatten(lines, mode), seen)
    ensures Addrs(Collect(lines, mode)) == Addrs(Flatten(lines, mode))
    decreases lines
  {
    if lines == [] {
    } else {
      match MeaningOf(lines[0].command)
      case Nothing => NestedCleaning(lines[1..], mode, seen);
      case Section(m) => NestedCleaning(lines[1..], m, seen);
      case Address =>
        var c, f: seq<Entry> := [Entry(lines[0].command, mode.flag)], [Entry(lines[0].command, mode.flag)];
        if mode.nested {
          if lines[0].target.Missing? {
            c, f := [], [];
          } else {
            var inner := lines[0].target.lines;
            c, f := Dedup(Collect(inner, PLAIN_MODE)), Flatten(inner, PLAIN_MODE);
            NestedCleaning(inner, PLAIN_MODE, seen);
            UnseenTwice(Collect(inner, PLAIN_MODE), {}, seen);
            AddrsOfUnseen(Collect(inner, PLAIN_MODE), {});
          }
        }
        JoinParts(c, Collect(lines[1..], mode), f, Flatten(lines[1..], mode), seen);
        NestedCleaning(lines[1..], mode, seen + Addrs(c));
    }
  }

  lemma JoinParts(c: seq<Entry>, d: seq<Entry>, f: seq<Entry>, g: seq<Entry>, seen: set<string>)
    requires Unseen(c, seen) == Unseen(f, seen) && Addrs(c) == Addrs(f)
    ensures Unseen(d, seen + Addrs(c)) == Unseen(g, seen + Addrs(c)) ==> Unseen(c + d, seen) == Unseen(f + g, seen)
    ensures Addrs(d) == Addrs(g) ==> Addrs(c + d) == Addrs(f + g)
  {
    UnseenConcat(c, d, seen);
    UnseenConcat(f, g, seen);
    AddrsConcat(c, d);
    AddrsConcat(f, g);
  }

  lemma AddrsConcat(a: seq<Entry>, b: seq<Entry>)
    ensures Addrs(a + b) == Addrs(a) + Addrs(b)
  {
  }

  /** So the result for a file is its flattened tree with the first occurrence of every address kept. */
  lemma CollectedIsFlattened(lines: seq<Line>)
    ensures Dedup(Collect(lines, PLAIN_MODE)) == Dedup(Flatten(lines, PLAIN_MODE))
  {
    NestedCleaning(lines, PLAIN_MODE, {});
  }

  // What removing duplicates keeps.

  predicate NoEmpty(list: seq<Entry>) {
    forall e :: e in list ==> e.addr != ""
  }

  lemma {:induction false} AddressesAreNotEmpty(lines: seq<Line>, mode: Mode)
    ensures NoEmpty(Flatten(lines, mode))
    decreases lines
  {
    if lines == [] {
    } else {
      match MeaningOf(lines[0].command)
      case Nothing => AddressesAreNotEmpty(lines[1..], mode);
      case Section(m) => AddressesAreNotEmpty(lines[1..], m);
      case Address =>
        AddressesAreNotEmpty(lines[1..], mode);
        if lines[0].target.File? {
          AddressesAreNotEmpty(lines[0].target.lines, PLAIN_MODE);
        }
    }
  }

  /** Every kept entry is the first one with its address, so that it carries the flag of the first occurrence. */
  lemma {:induction false} UnseenIsFirst(list: seq<Entry>, seen: set<string>, k: nat)
    requires NoEmpty(list) && k < |Unseen(list, seen)|
    ensures var e := Unseen(list, seen)[k];
            e.addr !in seen && Search(e.addr, list) > 0 && e == list[Search(e.addr, list) - 1]
  {
    var x := list[0];
    if x.addr in seen {
      UnseenIsFirst(list[1..], seen, k);
    } else if k == 0 {
    } else {
      UnseenIsFirst(list[1..], seen + {x.addr}, k - 1);
    }
  }

  /** No address is kept twice, and the first occurrences stay in order. */
  lemma {:induction false} UnseenInOrder(list: seq<Entry>, seen: set<string>, j: nat, k: nat)
    requires NoEmpty(list) && j < k < |Unseen(list, seen)|
    ensures Unseen(list, seen)[j].addr != Unseen(list, seen)[k].addr
    ensures Search(Unseen(list, seen)[j].addr, list) < Search(Unseen(list, seen)[k].addr, list)
  {
    hide Unseen, Search;
    FirstEntry(list, seen);
    var x := list[0];
    UnseenIsFirst(list, seen, j);
    UnseenIsFirst(list, seen, k);
    SearchBehind(Unseen(list, seen)[j].addr, list);
    SearchBehind(Unseen(list, seen)[k].addr, list);
    if x.addr in seen {
      UnseenInOrder(list[1..], seen, j, k);
    } else {
      UnseenIsFirst(list[1..], seen + {x.addr}, k - 1);
      if j > 0 {
        UnseenInOrder(list[1..], seen + {x.addr}, j - 1, k - 1);
        UnseenIsFirst(list[1..], seen + {x.addr}, j - 1);
      }
    }
  }

  lemma FirstEntry(list: seq<Entry>, seen: set<string>)
    requires NoEmpty(list) && Unseen(list, seen) != []
    ensures list != []
    ensures Unseen(list, seen) == if list[0].addr in seen then Unseen(list[1..], seen)
            else [list[0]] + Unseen(list[1..], seen + {list[0].addr})
  {
  }

  lemma SearchBehind(addr: string, list: seq<Entry>)
    requires list != [] && addr != ""
    ensures Search(addr, list) == if list[0].addr == addr then 1
            else if Search(addr, list[1..]) > 0 then Search(addr, list[1..]) + 1 else 0
  {
  }

  /** The addresses of a file, found in the result exactly if they are found in the flattened tree, and then with the
      entry of the first occurrence there. */
  lemma ResultOfFile(lines: seq<Line>, addr: string)
    ensures var all, kept := Flatten(lines, PLAIN_MODE), Dedup(Collect(lines, PLAIN_MODE));
            && (Search(addr, kept) > 0 <==> Search(addr, all) > 0)
            && (Search(addr, kept) > 0 ==> kept[Search(addr, kept) - 1] == all[Search(addr, all) - 1])
  {
    hide Flatten, Collect, Unseen, Search;
    var all, kept := Flatten(lines, PLAIN_MODE), Dedup(Collect(lines, PLAIN_MODE));
    CollectedIsFlattened(lines);
    AddressesAreNotEmpty(lines, PLAIN_MODE);
    AddrsOfUnseen(all, {});
    SearchIsFirst(addr, kept);
    SearchIsFirst(addr, all);
    ListedAddr(addr, kept);
    ListedAddr(addr, all);
    if Search(addr, kept) > 0 {
      UnseenIsFirst(all, {}, Search(addr, kept) - 1);
    }
  }

  lemma ListedAddr(addr: string, list: seq<Entry>)
    ensures addr in Addrs(list) <==> exists k :: 0 <= k < |list| && list[k].addr == addr
  {
  }

  // What the lines of a file say, by their commands.

  /** The lines that are neither empty, nor comments, nor the head of a section. */
  predicate Plain(lines: seq<Line>) {
    forall k :: 0 <= k < |lines| ==>
      var c := lines[k].command;
      && c != "" && c[0] != '#'
      && !("local:" <= c) && !("pci:" <= c) && !("usb:" <= c) && !("detect:" <= c)
  }

  predicate Head(l: Line) {
    "local:" <= l.command || "pci:" <= l.command || "usb:" <= l.command || "detect:" <= l.command
  }

  function ModeAfter(lines: seq<Line>, mode: Mode): Mode {
    if lines == [] then mode
    else ModeAfter(lines[1..], match MeaningOf(lines[0].command) case Section(m) => m case _ => mode)
  }

  lemma {:induction false} FlattenConcat(a: seq<Line>, b: seq<Line>, mode: Mode)
    ensures Flatten(a + b, mode) == Flatten(a, mode) + Flatten(b, ModeAfter(a, mode))
  {
    if a == [] {
      assert a + b == b;
    } else {
      assert (a + b)[1..] == a[1..] + b;
      FlattenConcat(a[1..], b, match MeaningOf(a[0].command) case Section(m) => m case _ => mode);
    }
  }

  /** The flag of a section does not depend on what comes before its head. */
  lemma HeadDecides(l: Line, rest: seq<Line>, mode: Mode, other: Mode)
    requires Head(l)
    ensures Flatten([l] + rest, mode) == Flatten([l] + rest, other)
  {
    assert l.command[0] != '#';
    assert ([l] + rest)[1..] == rest;
  }

  lemma PlainIsAddress(lines: seq<Line>)
    requires Plain(lines)
    ensures lines != [] ==> MeaningOf(lines[0].command) == Address && Plain(lines[1..])
  {
  }

  lemma {:induction false} PlainLines(lines: seq<Line>, mode: Mode)
    requires Plain(lines) && !mode.nested
    ensures Flatten(lines, mode) == seq(|lines|, k requires 0 <= k < |lines| => Entry(lines[k].command, mode.flag))
    ensures ModeAfter(lines, mode) == mode
  {
    hide Plain, MeaningOf;
    if lines == [] {
    } else {
      PlainIsAddress(lines);
      PlainLines(lines[1..], mode);
    }
  }

  function Concat<T>(parts: seq<seq<T>>): seq<T> {
    if parts == [] then [] else parts[0] + Concat(parts[1..])
  }

  /** What the k-th line includes: its file, started without flags. */
  function Included(lines: seq<Line>): seq<seq<Entry>> {
    seq(|lines|, k requires 0 <= k < |lines| =>
          if lines[k].target.Missing? then [] else Flatten(lines[k].target.lines, Mode(0x00, false)))
  }

  lemma {:induction false} NestedLines(lines: seq<Line>, mode: Mode)
    requires Plain(lines) && mode.nested
    ensures Flatten(lines, mode) == Concat(Included(lines)) && ModeAfter(lines, mode) == mode
  {
    hide Plain, MeaningOf;
    if lines == [] {
    } else {
      PlainIsAddress(lines);
      NestedLines(lines[1..], mode);
      assert Included(lines)[1..] == Included(lines[1..]);
    }
  }

  /** A section in any file: its lines carry LOCAL (0x03), PCI (0x01) or USB (0x02) after the heads of these names, and
      the lines after "detect:" name files that are read in their place. The section ends at the next head, and the
      lines before the first one carry no flag. */
  lemma SectionOfFile(before: seq<Line>, head: Line, lines: seq<Line>, rest: seq<Line>, mode: Mode)
    requires Head(head) && Plain(lines) && (rest != [] ==> Head(rest[0]))
    ensures var all, flag := Flatten(before + ([head] + (lines + rest)), mode),
                             if "local:" <= head.command then 0x03
                             else if "pci:" <= head.command then 0x01
                             else if "usb:" <= head.command then 0x02
                             else 0x00;
            var section := if "detect:" <= head.command then
                Concat(seq(|lines|, k requires 0 <= k < |lines| =>
                             if lines[k].target.Missing? then []
                             else Flatten(lines[k].target.lines, Mode(0x00, false))))
              else seq(|lines|, k requires 0 <= k < |lines| => Entry(lines[k].command, flag));
            all == Flatten(before, mode) + (section + Flatten(rest, Mode(0x00, false)))
    ensures Flatten(lines, Mode(0x00, false))
            == seq(|lines|, k requires 0 <= k < |lines| => Entry(lines[k].command, 0x00))
  {
    hide Flatten, ModeAfter;
    FlattenConcat(before, [head] + (lines + rest), mode);
    HeadStep(head, lines + rest, ModeAfter(before, mode));
    var m := HeadMode(head);
    FlattenConcat(lines, rest, m);
    OneHead(head.command);
    if m.nested {
      NestedLines(lines, m);
      assert Flatten(lines, m) == Concat(seq(|lines|, k requires 0 <= k < |lines| =>
                                               if lines[k].target.Missing? then []
                                               else Flatten(lines[k].target.lines, Mode(0x00, false)))) by {
        assert Included(lines) == seq(|lines|, k requires 0 <= k < |lines| =>
                                        if lines[k].target.Missing? then []
                                        else Flatten(lines[k].target.lines, Mode(0x00, false)));
      }
    } else {
      PlainLines(lines, m);
    }
    if rest != [] {
      assert [rest[0]] + rest[1..] == rest;
      HeadDecides(rest[0], rest[1..], m, PLAIN_MODE);
    } else {
      EmptyFile(m);
      EmptyFile(PLAIN_MODE);
    }
    PlainLines(lines, PLAIN_MODE);
  }

  lemma OneHead(command: string)
    ensures "detect:" <= command ==> !("local:" <= command) && !("pci:" <= command) && !("usb:" <= command)
  {
    assert "detect:"[0] == 'd' && "local:"[0] == 'l' && "pci:"[0] == 'p' && "usb:"[0] == 'u';
  }

  lemma EmptyFile(mode: Mode)
    ensures Flatten([], mode) == []
  {
  }

  function HeadMode(l: Line): Mode
    requires Head(l)
  {
    if "local:" <= l.command then Mode(0x03, false)
    else if "pci:" <= l.command then Mode(0x01, false)
    else if "usb:" <= l.command then Mode(0x02, false)
    else Mode(0x00, true)
  }

  lemma HeadStep(l: Line, rest: seq<Line>, mode: Mode)
    requires Head(l)
    ensures Flatten([l] + rest, mode) == Flatten(rest, HeadMode(l))
  {
    assert l.command[0] != '#';
    assert ([l] + rest)[1..] == rest;
  }

  /** Empty lines and comments change nothing, wherever they are. */
  lemma CommentsAreSkipped(before: seq<Line>, l: Line, rest: seq<Line>, mode: Mode)
    requires l.command == "" || l.command[0] == '#'
    ensures Flatten(before + ([l] + rest), mode) == Flatten(before + rest, mode)
  {
    FlattenConcat(before, [l] + rest, mode);
    FlattenConcat(before, rest, mode);
    assert ([l] + rest)[1..] == rest;
  }
}
