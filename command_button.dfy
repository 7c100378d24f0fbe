/** The per-task command buttons: their lookup tables, the button object with its loading
    and state changes and its click guard, and the factory that makes one button per
    command of a task. */
module CommandButtons {
  import opened Wrappers

  // ---------------------------------------------------------------------------
  // Lookup tables

  const Variants: seq<string> := ["primary", "secondary", "success", "warning", "danger"]
  const Sizes: seq<string> := ["sm", "md", "lg"]
  const Icons: seq<string> := ["play", "wrench", "edit", "check", "plus", "loader"]

  /** The table entry a lookup uses: the key itself when the table has it, else the
      fallback entry. */
  function Lookup(table: seq<string>, key: string, fallback: string): (r: string)
    requires fallback in table
    ensures r in table
    ensures key in table ==> r == key
    ensures key !in table ==> r == fallback
  {
    if key in table then key else fallback
  }

  /** `getVariantClasses`, `getSizeClasses` and the icon of `getIconSVG` look their key
      up in their table, falling back to `primary`, `sm` and `play`. */
  function VariantKey(variant: string): string { Lookup(Variants, variant, "primary") }
  function SizeKey(size: string): string { Lookup(Sizes, size, "sm") }
  function IconKey(icon: string): string { Lookup(Icons, icon, "play") }

  /** A label, an icon and a variant for a command. */
  datatype ButtonConfig = ButtonConfig(labelText: string, icon: string, variant: string)

  const ConfiguredCommands: seq<string> := ["execute-task", "fix", "tweak", "check-task", "queue-fix", "queue-tweak"]

  function ConfigOf(command: string): ButtonConfig
    requires command in ConfiguredCommands
  {
    match command
    case "execute-task" => ButtonConfig("Execute", "play", "primary")
    case "fix" => ButtonConfig("Fix", "wrench", "warning")
    case "tweak" => ButtonConfig("Tweak", "edit", "secondary")
    case "check-task" => ButtonConfig("Check", "check", "secondary")
    case "queue-fix" => ButtonConfig("Queue Fix", "plus", "warning")
    case _ => ButtonConfig("Queue Tweak", "plus", "secondary")
  }

  /** `commandConfigs[command] || commandConfigs['execute-task']`. */
  function CommandConfig(command: string): (c: ButtonConfig)
    ensures command in ConfiguredCommands ==> c == ConfigOf(command)
    ensures command !in ConfiguredCommands ==> c == ButtonConfig("Execute", "play", "primary")
    ensures c.icon in Icons && c.variant in Variants
  {
    ConfigOf(Lookup(ConfiguredCommands, command, "execute-task"))
  }

  /** `this.originalIcon || 'play'`. */
  function IconOr(original: Option<string>): string {
    if original.Some? && original.value != "" then original.value else "play"
  }

  // ---------------------------------------------------------------------------
  // The button

  class CommandButton {
    var command: string
    var labelText: string
    var icon: string
    /** Set by `setState` when it changes the icon; absent until then. */
    var originalIcon: Option<string>
    var disabled: bool
    var variant: string
    var size: string
    var isLoading: bool
    /** The commands handed to `onClick`, one per click that got through. */
    var clicks: seq<string>

    constructor(command: string, labelText: string, icon: string, disabled: bool, variant: string, size: string)
      ensures this.command == command && this.labelText == labelText && this.icon == icon
      ensures this.disabled == disabled && this.variant == variant && this.size == size
      ensures originalIcon.None? && !isLoading && clicks == []
    {
      this.command := command;
      this.labelText := labelText;
      this.icon := icon;
      this.originalIcon := None;
      this.disabled := disabled;
      this.variant := variant;
      this.size := size;
      this.isLoading := false;
      this.clicks := [];
    }

    /** The click listener: `onClick` runs only on an enabled button that is not
        loading. */
    method Click()
      modifies this
      ensures clicks == old(clicks) + (if !old(disabled) && !old(isLoading) then [command] else [])
      ensures command == old(command) && labelText == old(labelText) && icon == old(icon)
      ensures originalIcon == old(originalIcon) && disabled == old(disabled) && variant == old(variant)
      ensures size == old(size) && isLoading == old(isLoading)
    {
      if !disabled && !isLoading {
        clicks := clicks + [command];
      }
    }

    /** `setLoading`: the spinner while loading; afterwards the icon `setState` last
        replaced, or `play` when it never ran. */
    method SetLoading(loading: bool)
      modifies this
      ensures isLoading == loading
      ensures icon == (if loading then "loader" else IconOr(old(originalIcon)))
      ensures command == old(command) && labelText == old(labelText) && originalIcon == old(originalIcon)
      ensures disabled == old(disabled) && variant == old(variant) && size == old(size) && clicks == old(clicks)
    {
      isLoading := loading;
      icon := if loading then "loader" else IconOr(originalIcon);
    }

    /** `setLoading` as evidently meant: entering the loading state remembers the icon
        shown, and leaving it shows that icon again. */
    method SetLoadingRestoring(loading: bool)
      modifies this
      ensures isLoading == loading
      ensures loading && !old(isLoading) ==> icon == "loader" && originalIcon == Some(old(icon))
      ensures loading && old(isLoading) ==> icon == "loader" && originalIcon == old(originalIcon)
      ensures !loading && old(isLoading) ==> icon == old(originalIcon).GetOr("play") && originalIcon == old(originalIcon)
      ensures !loading && !old(isLoading) ==> icon == old(icon) && originalIcon == old(originalIcon)
      ensures command == old(command) && labelText == old(labelText)
      ensures disabled == old(disabled) && variant == old(variant) && size == old(size) && clicks == old(clicks)
    {
      if loading && !isLoading {
        originalIcon := Some(icon);
      }
      if loading {
        icon := "loader";
      } else if isLoading {
        icon := originalIcon.GetOr("play");
      }
      isLoading := loading;
    }

    /** `setState`: only the fields given change; a new icon records the one it
        replaces. */
    method SetState(newDisabled: Option<bool>, newVariant: Option<string>, newLabelText: Option<string>, newIcon: Option<string>)
      modifies this
      ensures disabled == (if newDisabled.Some? then newDisabled.value else old(disabled))
      ensures variant == (if newVariant.Some? then newVariant.value else old(variant))
      ensures labelText == (if newLabelText.Some? then newLabelText.value else old(labelText))
      ensures icon == (if newIcon.Some? then newIcon.value else old(icon))
      ensures originalIcon == (if newIcon.Some? then Some(old(icon)) else old(originalIcon))
      ensures command == old(command) && size == old(size) && isLoading == old(isLoading) && clicks == old(clicks)
    {
      if newDisabled.Some? {
        disabled := newDisabled.value;
      }
      if newVariant.Some? && newVariant.value != variant {
        variant := newVariant.value;
      }
      if newLabelText.Some? {
        labelText := newLabelText.value;
      }
      if newIcon.Some? {
        originalIcon := Some(icon);
        icon := newIcon.value;
      }
    }
  }

  /** `createCommandButton`: the command's configuration (an unknown command gets the
      execute-task one but keeps its own name), small, and disabled exactly for a
      completed task. */
  method CreateCommandButton(command: string, taskStatus: string) returns (b: CommandButton)
    ensures fresh(b)
    ensures b.command == command && b.size == "sm"
    ensures b.labelText == CommandConfig(command).labelText && b.icon == CommandConfig(command).icon
    ensures b.variant == CommandConfig(command).variant
    ensures b.disabled <==> taskStatus == "completed"
    ensures !b.isLoading && b.originalIcon.None? && b.clicks == []
  {
    var config := CommandConfig(command);
    b := new CommandButton(command, config.labelText, config.icon, taskStatus == "completed", config.variant, "sm");
  }

  /** `createCommandButtonGroup`: one new button per command, in the given order. */
  method CreateCommandButtonGroup(taskStatus: string, commands: seq<string>) returns (buttons: seq<CommandButton>)
    ensures |buttons| == |commands|
    ensures forall i :: 0 <= i < |commands| ==>
      fresh(buttons[i]) && buttons[i].command == commands[i] &&
      buttons[i].labelText == CommandConfig(commands[i]).labelText &&
      (buttons[i].disabled <==> taskStatus == "completed") && !buttons[i].isLoading
    ensures forall i, j :: 0 <= i < j < |buttons| ==> buttons[i] != buttons[j]
  {
    buttons := [];
    for i := 0 to |commands|
      invariant |buttons| == i
      invariant forall k :: 0 <= k < i ==>
        fresh(buttons[k]) && buttons[k].command == commands[k] &&
        buttons[k].labelText == CommandConfig(commands[k]).labelText &&
        (buttons[k].disabled <==> taskStatus == "completed") && !buttons[k].isLoading
      invariant forall k, j :: 0 <= k < j < i ==> buttons[k] != buttons[j]
    {
      var b := CreateCommandButton(commands[i], taskStatus);
      buttons := buttons + [b];
    }
  }

  // ---------------------------------------------------------------------------
  // The loading round trip

  /** As written, a Fix button that shows its spinner and stops comes back with the
      `play` icon instead of its wrench. */
  method FixButtonLoadingAsWritten() returns (before: string, after: string)
    ensures before == "wrench" && after == "play"
  {
    var b := CreateCommandButton("fix", "pending");
    before := b.icon;
    b.SetLoading(true);
    b.SetLoading(false);
    after := b.icon;
  }

  /** With the restoring version, a button that shows its spinner and stops shows the
      icon it had, whatever it was. */
  method LoadingRoundTripRestores(b: CommandButton) returns (before: string, after: string)
    requires !b.isLoading
    modifies b
    ensures after == before && !b.isLoading
  {
    before := b.icon;
    b.SetLoadingRestoring(true);
    b.SetLoadingRestoring(false);
    after := b.icon;
  }
}
