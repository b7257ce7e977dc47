/** update_authorized_keys() (ssh_to_pipeline.py lines 19-30) on an abstract
    ~/.ssh/authorized_keys file: absent, or present with some content and permission bits. */
module AuthorizedKeys {
  import opened Base
  import Text

  /** The permission bits 0o644 (rw-r--r--) that line 25 sets. */
  const Mode644: nat := 6 * 64 + 4 * 8 + 4

  datatype FileState = Absent | Present(content: string, mode: nat)

  /** Raised at lines 27-30: SSH_PUBKEY is not defined and the file does not exist. */
  datatype KeysError = PubkeyUndefinedAndNoFile

  /** What line 24 appends for a key. */
  function Entry(key: string): string {
    "\n" + key + "\n"
  }

  /** The content an append starts from: opening an absent file with mode "a" creates it empty. */
  function ContentOf(file: FileState): string {
    if file.Present? then file.content else ""
  }

  /** The file after update_authorized_keys(), given SSH_PUBKEY (`None` when undefined), or the
      error it raises. A supplied key is always appended after the old content and leaves the
      file with mode 0o644; without a key an existing file is left alone and a missing one is
      the error. */
  function Update(file: FileState, pubkey: Option<string>): (r: Result<FileState, KeysError>)
    ensures r.Failure? <==> pubkey.None? && file.Absent?
    ensures pubkey.Some? ==>
      r.Success? && r.value.Present? && r.value.mode == Mode644
      && |r.value.content| == |ContentOf(file)| + |pubkey.value| + 2
      && r.value.content[..|ContentOf(file)|] == ContentOf(file)
      && r.value.content[|ContentOf(file)|..] == Entry(pubkey.value)
    ensures pubkey.None? && file.Present? ==> r == Success(file)
  {
    match pubkey
    case Some(key) => Success(Present(ContentOf(file) + Entry(key), Mode644))
    case None => if file.Present? then Success(file) else Failure(PubkeyUndefinedAndNoFile)
  }

  lemma EntryFields(key: string)
    requires '\n' !in key
    ensures Text.Fields(key + "\n" + "") == [key, ""]
  {
    Text.FieldsJoin(key, "");
    Text.FieldsOfLine(key);
    Text.FieldsOfLine("");
  }

  /** Whatever the old content ends with, a newline-free key becomes a line of its own: the
      newline-separated pieces of the file are the old ones followed by the key and an empty
      final piece. */
  lemma KeyBecomesLine(file: FileState, key: string)
    requires '\n' !in key
    ensures Update(file, Some(key)).Success?
    ensures Text.Fields(Update(file, Some(key)).value.content)
         == Text.Fields(ContentOf(file)) + [key, ""]
  {
    var prior := ContentOf(file);
    assert Update(file, Some(key)).value.content == prior + "\n" + (key + "\n" + "");
    Text.FieldsJoin(prior, key + "\n" + "");
    EntryFields(key);
  }

  lemma CountTwice(before: seq<string>, key: string)
    requires key != ""
    ensures multiset(before + [key, ""] + [key, ""])[key] == multiset(before)[key] + 2
  {
    assert before + [key, ""] + [key, ""] == before + [key, "", key, ""];
    assert multiset(before + [key, "", key, ""]) == multiset(before) + multiset{key, "", key, ""};
  }

  /** Appending the same key twice keeps both copies: no deduplication, and the old content
      stays a prefix. A non-empty, newline-free key then occurs as a line two more times. */
  lemma AppendTwiceKeepsBoth(file: FileState, key: string)
    ensures Update(file, Some(key)).Success?
    ensures var once := Update(file, Some(key)).value;
      Update(once, Some(key)).Success?
      && var twice := Update(once, Some(key)).value;
      twice.content == ContentOf(file) + Entry(key) + Entry(key)
      && (key != "" && '\n' !in key ==>
            multiset(Text.Fields(twice.content))[key]
              == multiset(Text.Fields(ContentOf(file)))[key] + 2)
  {
    var once := Update(file, Some(key)).value;
    assert Update(once, Some(key)).value.content == ContentOf(file) + Entry(key) + Entry(key);
    if key != "" && '\n' !in key {
      KeyBecomesLine(file, key);
      KeyBecomesLine(once, key);
      CountTwice(Text.Fields(ContentOf(file)), key);
    }
  }

  /** The authorized_keys file, updated in place. */
  class KeysFile {
    var present: bool
    var content: string
    var mode: nat

    function State(): FileState
      reads this
    {
      if present then Present(content, mode) else Absent
    }

    constructor (initial: FileState)
      ensures State() == initial
    {
      present := initial.Present?;
      content := if initial.Present? then initial.content else "";
      mode := if initial.Present? then initial.mode else 0;
    }

    /** update_authorized_keys() with SSH_PUBKEY given as `pubkey`: the file changes as
        `Update` says, and the error it raises is reported as `err`, leaving the file unchanged. */
    method UpdateAuthorizedKeys(pubkey: Option<string>) returns (err: Option<KeysError>)
      modifies this
      ensures Update(old(State()), pubkey)
           == (if err.Some? then Failure(err.value) else Success(State()))
      ensures err.Some? ==> State() == old(State())
    {
      if pubkey.Some? {
        if !present {
          // open(..., "a") creates the file empty
          present, content := true, "";
        }
        content := content + "\n" + pubkey.value + "\n";
        mode := Mode644;
        assert content == ContentOf(old(State())) + Entry(pubkey.value);
      }
      if !present {
        return Some(PubkeyUndefinedAndNoFile);
      }
      return None;
    }
  }
}
