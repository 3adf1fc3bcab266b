# Disk-alarm notifier, modelled in Dafny

This project models `lambda_handler`, the AWS Lambda function that forwards
CloudWatch disk-usage alarms from SNS to a Rocket.Chat incoming webhook.

The handler works in this order:

1. It resolves the webhook URL from SSM Parameter Store. The parameter name
   comes from `WEBHOOK_PARAM_NAME`, with `/rocketchat/webhook_url` as the
   default. If the lookup fails, the handler returns 500 at once.
2. It walks the SNS records in order. For each record it decodes the
   message, unwrapping a second JSON layer when the first decode gives a
   string. It reads the `path`, `instanceid` and `fstype` dimensions and the
   alarm's name, state and reason, and formats a chat message. It then posts
   `{"text": message}` to the webhook.
3. It returns at the first post that succeeds. A record that fails anywhere
   is skipped. If no post succeeds, the handler returns 200 with a
   "nothing processed" body.

The model is in four modules:

- `JsonValues` (`json.dfy`): decoded JSON values, plus the three Python
  operations the handler applies to them: `dict.get`, `dict[key]` and
  `str()` as used by f-strings. Numbers, booleans and null share one
  constructor, `JScalar`, which carries their `str()` text. The handler
  treats all three alike: none of them can be iterated, indexed or
  lower-cased.
- `Template` (`template.dfy`): a template made of literal pieces with one
  value between each pair of neighbours. Its lemmas give the position of
  each value in the result.
- `AlarmMessage` (`alarm.dfy`): the `try` block for one record, up to the
  point of delivery. Every Python exception on that path becomes `None`,
  which means "skip this record".
- `Notifier` (`handler.dfy`): the parameter lookup, the record loop
  (`RecordLoop`, a method with a `while` loop) and `LambdaHandler`.

The handler's collaborators become inputs:

- `ssm: string -> Fetch` is the parameter store.
- `decode: string -> Option<Json>` is `json.loads`.
- `replies[i]` is what the webhook answers if record `i` is posted. It is
  either an HTTP status or `TransportError`.

`urlopen` returns a response only for a 2xx status and raises `HTTPError`
for any other status, so only 2xx replies count as delivered (`Accepted`).
Two ghost outputs record what the handler did: `examined` is the number of
records the loop took up, and `log` lists the POST requests in order. The
ordering and short-circuit properties are stated over these two outputs.

`RecordLoop` takes the per-record reading as a function value `read`, and
`LambdaHandler` passes `Reader(decode)`, which is `RecordAlarm` with the
decoder fixed. The loop is the same code as in the handler. Keeping the
reader abstract keeps the loop's proof independent of how a record is read.

The model follows the code in these details:

- Dimensions are a list. The lookup takes the FIRST matching element in list
  order; they are not an unordered set.
- A field that is present but not a string is inserted with Python's
  `str()` (`None`, `42`, `['a']`). The default is used only when the key is
  absent.
- The records that get skipped include more cases than a failed decode:
  - the decoded message, its `Trigger` or a dimension element is not a dict;
  - a dimension `name` is not a string;
  - `Dimensions` is a non-empty string or dict, or a number, boolean or null;
  - a matching element has no `value`.

## Model

| member | source | states |
|---|---|---|
| `Notifier.LambdaHandler` | cloud-formation/lambda/code/lambda_function.py:9-89 | If the parameter lookup fails: status 500, body "SSM parameter fetch error: " followed by the error text, no record examined and no request made. Otherwise the response is `ResponseFrom` of the readings and replies, and the log is exactly one POST per readable record up to where the loop stopped. A "notified" result means the last record examined is the FIRST delivering record, and the status is that reply's status. Any other result is 200 with the "No valid SNS records processed or all failed." body, and then every record was examined and none delivers (so none delivered, also when there are no records). |
| `Notifier.RecordLoop` | cloud-formation/lambda/code/lambda_function.py:25-89 | The record loop for any record reader. Its response is `ResponseFrom` of the readings and replies. It stops right after the first record that is read and whose reply is 2xx, or walks every record and returns 200. The log is the requests for the readable records walked. |
| `Notifier.ResponseOfFirstDelivery` | cloud-formation/lambda/code/lambda_function.py:76-80 | When record i is the first record that is read and whose reply is 2xx, the handler's response carries record i's status and the body "Rocket.Chat notified: Disk alarm". |
| `Notifier.ResponseOfNoDelivery` | cloud-formation/lambda/code/lambda_function.py:82-89 | When no record delivers, the response is status 200 with the body "No valid SNS records processed or all failed.", whether records were skipped, refused or absent. |
| `Notifier.ParameterName` | cloud-formation/lambda/code/lambda_function.py:13 | The parameter name is the `WEBHOOK_PARAM_NAME` value when that variable is set (even if empty), `/rocketchat/webhook_url` otherwise. |
| `Notifier.PostRequest` | cloud-formation/lambda/code/lambda_function.py:25-76 | The request goes to the fetched URL with header `Content-Type: application/json`, a 10-second timeout and a body that is a one-member object whose `text` is the alarm's message. |
| `Notifier.Accepted` | cloud-formation/lambda/code/lambda_function.py:76 | A reply counts as delivered exactly when it is an HTTP response whose status is in the 2xx range. `urlopen` raises for every other status and on transport errors. |
| `Notifier.AttemptedInOrder` | cloud-formation/lambda/code/lambda_function.py:27-38 | Requests are made in record order, at most one per record, and never for a record past those walked. |
| `Notifier.AttemptedRequests` | cloud-formation/lambda/code/lambda_function.py:27-76 | Every request made is for a record that was read successfully, and posts that record's message to the fetched URL. |
| `Notifier.AttemptedExactlyReadable` | cloud-formation/lambda/code/lambda_function.py:27-38 | Among the records walked, a record gets a request if and only if it can be read. An unreadable record is skipped and the walk goes on to the next one. |
| `Notifier.AtMostOneDelivery` | cloud-formation/lambda/code/lambda_function.py:76-84 | When record i is the first to deliver, the last request is record i's. Every earlier request was refused or lost, and no record after i gets a request, so there is at most one delivery per invocation. |
| `Notifier.NoDeliveryAllRefused` | cloud-formation/lambda/code/lambda_function.py:82-89 | When no record delivers, every request made was refused or lost. |
| `AlarmMessage.RecordAlarm` | cloud-formation/lambda/code/lambda_function.py:29-38 | A record can be read only if it is a dict with `Sns`, `Sns` is a dict with `Message`, and `Message` is a string. For such a record, the alarm is the one `Extract` reads from the unwrapped message; the record is skipped when unwrapping fails. |
| `AlarmMessage.Unwrap` | cloud-formation/lambda/code/lambda_function.py:32-35 | A failed first decode fails. A first decode that gives a non-string is the message. A first decode that gives a string is decoded once more, and that result is the message. |
| `AlarmMessage.DoubleEncodingTransparent` | cloud-formation/lambda/code/lambda_function.py:32-35 | Take a non-string value `v` and a decoder that reads back `v` from its encoding and the string from the twice-encoded text. Then `v` unwraps to itself whether it was encoded once or twice. |
| `AlarmMessage.TripleEncodingNotUnwrapped` | cloud-formation/lambda/code/lambda_function.py:32-40 | Decoding stops after two layers, for a decoder that reads back the two inner string layers. A triple-encoded value comes back as a string, and a string yields no alarm, so the record is skipped. |
| `AlarmMessage.DoubleEncodedRecord` | cloud-formation/lambda/code/lambda_function.py:29-35 | Take any record whose `Sns.Message` holds a non-string notification encoded once or twice, and a decoder that reads back both layers. The record reads as that notification, whatever other members the record and its `Sns` carry. |
| `AlarmMessage.Lower` | cloud-formation/lambda/code/lambda_function.py:46-48 | Lower-casing keeps the length. Each ASCII capital becomes its lower-case letter, and every other character is kept, so the name match ignores ASCII case. |
| `AlarmMessage.NameOf` | cloud-formation/lambda/code/lambda_function.py:46-48 | A dimension dict without `name` has the name `''`, and a dict whose `name` is a string has that name. A `name` that is not a string, or an element that is not a dict, makes the lookup raise. |
| `AlarmMessage.LookupInFirstMatch` | cloud-formation/lambda/code/lambda_function.py:46-48 | If every element before i is inspected and does not match, and element i's lower-cased name equals the key, the lookup gives element i's `value` (or fails if it has none). Later elements are never looked at. |
| `AlarmMessage.LookupInNoMatch` | cloud-formation/lambda/code/lambda_function.py:46-48 | If no element's lower-cased name equals the key, the lookup gives `'unknown'`. |
| `AlarmMessage.LookupInBadElement` | cloud-formation/lambda/code/lambda_function.py:46-48 | An element that cannot be inspected, met before any match, makes the lookup fail. Such an element is not a dict, or its name is not a string. |
| `AlarmMessage.LookupIn` | cloud-formation/lambda/code/lambda_function.py:46-48 | The `next(...)` over a list of dimensions. An empty list gives `'unknown'`. Any other result that is not a failure or `'unknown'` is the `value` of an element whose lower-cased name equals the key. The three `LookupIn…` lemmas say which element decides. |
| `AlarmMessage.Lookup` | cloud-formation/lambda/code/lambda_function.py:40-48 | On a list, the lookup is `LookupIn` over its elements, and an empty list gives `'unknown'`. A string or dict gives `'unknown'` when empty and raises otherwise. A number, boolean or null raises. |
| `AlarmMessage.DimensionsOf` | cloud-formation/lambda/code/lambda_function.py:40 | Only a dict message has dimensions. A `Trigger` dict holding `Dimensions` gives that value. A message without `Trigger`, or with a `Trigger` that has no `Dimensions`, gives the empty list. A `Trigger` that is not a dict raises. |
| `AlarmMessage.Extract` | cloud-formation/lambda/code/lambda_function.py:40-53 | An alarm is read exactly when the message has dimensions and all three lookups succeed. Path, instance id and fstype are the shown results of those lookups, or `unknown` for all three when there are no dimensions. `AlarmName`, `NewStateValue` and `NewStateReason` are shown as given, or default to `UnknownAlarm`, `UNKNOWN` and `No reason provided.` when absent. |
| `AlarmMessage.MessageShowsValue` | cloud-formation/lambda/code/lambda_function.py:56-63 | Each of the six values appears in the message between its two fixed labels. The values appear in the order name, state, path, instance id, filesystem type, reason, at strictly increasing positions. The message ends right after the reason. |
| `AlarmMessage.Values` | cloud-formation/lambda/code/lambda_function.py:56-63 | The six values the message shows, in its order: name, state, path, instance id, filesystem type, reason. |
| `AlarmMessage.Message` | cloud-formation/lambda/code/lambda_function.py:56-63 | The message opens with the title line `*Disk Alarm Triggered*` and the backtick before the alarm name, and it ends with the reason. |
| `AlarmMessage.NoDimensionsShowUnknown` | cloud-formation/lambda/code/lambda_function.py:40-63 | An alarm without dimensions is read with path, instance id and filesystem type all `unknown`. Its message shows `unknown` after each of the "Volume", "Instance ID" and "Filesystem" labels. |
| `AlarmMessage.UnknownDimensionsShown` | cloud-formation/lambda/code/lambda_function.py:59-61 | An alarm whose path, instance id and filesystem type are `unknown` shows `unknown` between each of those three labels and the next. |
| `AlarmMessage.Payload` | cloud-formation/lambda/code/lambda_function.py:65-67 | The payload is an object with exactly one member, `text`, holding the message. |
| `Template.FillPlacesValue` | cloud-formation/lambda/code/lambda_function.py:56-63 | In a filled template, value k sits at its offset, with literal k just before it and literal k+1 just after it. |
| `Template.FillEndsAfterLast` | cloud-formation/lambda/code/lambda_function.py:56-63 | A filled template ends right after its last value and last literal. |
| `JsonValues.Find` | cloud-formation/lambda/code/lambda_function.py:51-53 | A key is absent exactly when no member has it. Otherwise the value is that of the last member with the key, which matches a dict built by `json.loads`. |
| `JsonValues.Index` | cloud-formation/lambda/code/lambda_function.py:29 | `v[key]` succeeds exactly when `v` is a dict holding `key`, and then gives the value stored for `key`. |
| `JsonValues.GetOr` | cloud-formation/lambda/code/lambda_function.py:51-53 | `get` gives the default when the key is absent and the stored value when it is present. |
| `JsonValues.Show` | cloud-formation/lambda/code/lambda_function.py:56-63 | An f-string inserts a string as it is and a number, boolean or null as its `str()` text. A list is inserted in brackets and a dict in braces. |

## Left out

- The AWS CDK stacks and `code/app.py` are not part of this model. They
  declare cloud resources and have no behaviour of their own.
- `print` logging, the boto3 SSM client, `urllib`'s network I/O and
  timeout, and `json.loads`: these become the inputs `ssm`, `replies` and
  `decode`. A redirect that `urlopen` follows is folded into the reply.
- The byte encoding of the request body: `json.dumps` and `.encode("utf-8")`.
  The log holds the payload as a JSON value.
- `event` is taken to be its list of records, with an absent `Records`
  meaning an empty list. The model does not cover an event that is not a
  dict, or a `Records` that is not a list. On such an event the handler
  either raises from the `for` statement or iterates keys or characters,
  all of which are skipped.
- AlarmMessage.Lower: only ASCII letters are folded. Python's `str.lower()` also folds
  other Unicode letters.
- JsonValues.Show: when `str()` renders a list or dict, the model quotes the strings
  inside it with `'` but does not escape them. For a dict with a repeated
  key, the model shows every member, not just the last one.
- The function's 30-second invocation time limit, set in
  `code/stacks/lambda_stack.py:77`, is not modelled. With 10-second POST
  timeouts, a slow webhook can end the invocation after about three
  attempts. It then returns no response and leaves records unwalked, which
  `RecordLoop`'s "walk every record, then return 200" does not capture.
- `replies[i]` is fixed per record. The model cannot express a reply that
  depends on earlier attempts, such as a server that recovers between
  posts.
- The deployment sets the environment variable `WEBHOOK_PARAM`, but the
  handler reads `WEBHOOK_PARAM_NAME`. The model takes the environment as an
  input and does not model how it is deployed.
